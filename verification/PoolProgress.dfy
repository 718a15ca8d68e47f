/** Progress: as long as a queued task always finds a worker awake, every task that is
    enqueued is eventually finished, and every join of a task that nobody else joins
    eventually returns.  An active pool with workers is such a pool (pool.c 69-151). */
module PoolProgress {
  import opened Wrappers
  import opened PoolProtocol
  import opened PoolSafety
  import opened PoolJoin
  import opened PoolShutdown

  /** Some worker has a step to take. */
  ghost predicate SomeoneAwake(s: State) {
    exists w :: Awake(s, w)
  }

  ghost predicate FairRun(c: Config, b: Behavior) {
    IsBehavior(c, b) && Fair(c, b) && Reachable(c, b.st(0))
  }

  /** As long as t is queued, some worker is awake. */
  ghost predicate ServesAlways(b: Behavior, t: TaskId) {
    forall k: nat :: t in b.st(k).queue ==> SomeoneAwake(b.st(k))
  }

  /** A fair behaviour in which a queued task always finds a worker awake. */
  ghost predicate Lively(c: Config, b: Behavior) {
    FairRun(c, b) && forall k: nat :: b.st(k).queue != [] ==> SomeoneAwake(b.st(k))
  }

  lemma {:induction false} BehaviorReachable(c: Config, b: Behavior, k: nat)
    requires IsBehavior(c, b) && Reachable(c, b.st(0))
    ensures Reachable(c, b.st(k))
  {
    if k > 0 {
      BehaviorReachable(c, b, k - 1);
      assert StepAt(c, b, k - 1);
      ReachableStep(c, b.st(k - 1), b.act(k - 1));
    }
  }

  lemma StepOf(c: Config, b: Behavior, k: nat)
    requires FairRun(c, b)
    ensures Inv(c, b.st(k)) && JoinInv(c, b.st(k))
    ensures Enabled(c, b.st(k), b.act(k)) && b.st(k + 1) == Apply(c, b.st(k), b.act(k))
  {
    BehaviorReachable(c, b, k);
    ReachableJoinInv(c, b.st(k));
    assert StepAt(c, b, k);
  }

  // ---- A worker that is awake goes on ----

  /** Nobody but the worker itself changes what an awake worker is doing. */
  lemma OthersLeaveAwake(c: Config, s: State, a: Action, w: nat)
    requires Enabled(c, s, a) && Awake(s, w) && ActorOf(a) != Some(Core(w))
    ensures Awake(Apply(c, s, a), w) && Apply(c, s, a).workers[w] == s.workers[w]
  {
    if !a.ShutdownCall? && !a.ShutdownRecheck? {
      MovedWorker(c, s, a);
    }
  }

  lemma {:induction false} SameUntilItActs(c: Config, b: Behavior, w: nat, i: nat, j: nat)
    requires FairRun(c, b) && Awake(b.st(i), w) && i <= j
    requires forall k: nat :: i <= k < j ==> ActorOf(b.act(k)) != Some(Core(w))
    ensures Awake(b.st(j), w) && b.st(j).workers[w] == b.st(i).workers[w]
    decreases j - i
  {
    if i < j {
      SameUntilItActs(c, b, w, i, j - 1);
      StepOf(c, b, j - 1);
      OthersLeaveAwake(c, b.st(j - 1), b.act(j - 1), w);
    }
  }

  /** The next step of an awake worker. */
  lemma NextAct(c: Config, b: Behavior, w: nat, i: nat) returns (j: nat)
    requires FairRun(c, b) && Awake(b.st(i), w)
    ensures i <= j && ActorOf(b.act(j)) == Some(Core(w))
    ensures Awake(b.st(j), w) && b.st(j).workers[w] == b.st(i).workers[w]
  {
    if !ActsFrom(b, Core(w), i) {
      forall k: nat | i <= k
        ensures ActorEnabled(c, b.st(k), Core(w))
      {
        SameUntilItActs(c, b, w, i, k);
        StepOf(c, b, k);
        var a := AwakeIsEnabled(c, b.st(k), w);
      }
    }
    var m: nat :| i <= m && ActorOf(b.act(m)) == Some(Core(w));
    j := i;
    while ActorOf(b.act(j)) != Some(Core(w))
      invariant i <= j <= m
      invariant forall k: nat :: i <= k < j ==> ActorOf(b.act(k)) != Some(Core(w))
      decreases m - j
    {
      j := j + 1;
    }
    SameUntilItActs(c, b, w, i, j);
  }

  // ---- A queued task is dequeued ----

  ghost predicate QueuedAt(s: State, t: TaskId, p: nat) {
    p < |s.queue| && s.queue[p] == t
  }

  /** The work to be done before the task at p is taken. */
  ghost function Before(s: State, p: nat): nat {
    Sum(s.workers, WorkLeft) + 5 * (p + 1)
  }

  /** Where the task is after a step that has not dequeued it. */
  ghost function Shift(a: Action, p: nat): nat {
    if a.WorkerLock? && p > 0 then p - 1 else p
  }

  /** Taking a task off the queue: one place up for those behind it. */
  lemma TakeStep(c: Config, s: State, w: nat, t: TaskId, p: nat)
    requires WorkerAt(s, w) && s.workers[w] == Ready && QueuedAt(s, t, p)
    ensures var s' := DoWorkerLock(s, w);
      || t in s'.dequeued
      || (p > 0 && QueuedAt(s', t, p - 1) && Before(s', p - 1) < Before(s, p))
  {
    var s' := DoWorkerLock(s, w);
    SumUpdate(s.workers, w, Taken(s.queue[0]), WorkLeft);
    if p == 0 {
      assert s'.dequeued[|s.dequeued|] == t;
    }
  }

  /** Every other step leaves the place, and makes progress if it is a worker's. */
  lemma OtherStep(c: Config, s: State, a: Action, t: TaskId, p: nat)
    requires Enabled(c, s, a) && QueuedAt(s, t, p) && !a.WorkerLock?
    ensures var s' := Apply(c, s, a);
      QueuedAt(s', t, p) && Before(s', p) <= Before(s, p) && (CoreAction(a) ==> Before(s', p) < Before(s, p))
  {
    var s' := Apply(c, s, a);
    if !a.ShutdownCall? && !a.ShutdownRecheck? {
      MovedWorker(c, s, a);
      if Moved(a) != None {
        SumUpdate(s.workers, Moved(a).value, s'.workers[Moved(a).value], WorkLeft);
      }
    }
  }

  /** A step dequeues the task, or leaves no more work before it, and less if it is a
      worker's. */
  lemma QueueStep(c: Config, b: Behavior, k: nat, t: TaskId, p: nat)
    requires FairRun(c, b) && QueuedAt(b.st(k), t, p)
    ensures var s, s' := b.st(k), b.st(k + 1);
      var q := Shift(b.act(k), p);
      || t in s'.dequeued
      || (QueuedAt(s', t, q) && Before(s', q) <= Before(s, p)
          && (CoreAction(b.act(k)) ==> Before(s', q) < Before(s, p)))
  {
    StepOf(c, b, k);
    if b.act(k).WorkerLock? {
      TakeStep(c, b.st(k), b.act(k).w, t, p);
    } else {
      OtherStep(c, b.st(k), b.act(k), t, p);
    }
  }

  lemma DequeuedStays(c: Config, s: State, a: Action, t: TaskId)
    requires Enabled(c, s, a) && t in s.dequeued
    ensures t in Apply(c, s, a).dequeued
  {
  }

  lemma {:induction false} StaysDequeued(c: Config, b: Behavior, t: TaskId, i: nat, j: nat)
    requires FairRun(c, b) && t in b.st(i).dequeued && i <= j
    ensures t in b.st(j).dequeued
    decreases j - i
  {
    if i < j {
      StaysDequeued(c, b, t, i, j - 1);
      StepOf(c, b, j - 1);
      DequeuedStays(c, b.st(j - 1), b.act(j - 1), t);
    }
  }

  lemma {:induction false} QueuedOrDequeued(c: Config, b: Behavior, t: TaskId, p: nat, i: nat, j: nat) returns (q: nat)
    requires FairRun(c, b) && QueuedAt(b.st(i), t, p) && i <= j
    ensures t in b.st(j).dequeued || (QueuedAt(b.st(j), t, q) && Before(b.st(j), q) <= Before(b.st(i), p))
    decreases j - i
  {
    q := p;
    if i < j {
      var r := QueuedOrDequeued(c, b, t, p, i, j - 1);
      if t in b.st(j - 1).dequeued {
        StaysDequeued(c, b, t, j - 1, j);
      } else {
        QueueStep(c, b, j - 1, t, r);
        q := Shift(b.act(j - 1), r);
      }
    }
  }

  lemma {:induction false} EventuallyDequeued(c: Config, b: Behavior, t: TaskId, p: nat, i: nat) returns (j: nat)
    requires FairRun(c, b) && ServesAlways(b, t) && QueuedAt(b.st(i), t, p)
    ensures i <= j && t in b.st(j).dequeued
    decreases Before(b.st(i), p)
  {
    var w :| Awake(b.st(i), w);
    var k := NextAct(c, b, w, i);
    var q := QueuedOrDequeued(c, b, t, p, i, k);
    if t in b.st(k).dequeued {
      return k;
    }
    QueueStep(c, b, k, t, q);
    if t in b.st(k + 1).dequeued {
      return k + 1;
    }
    j := EventuallyDequeued(c, b, t, Shift(b.act(k), q), k + 1);
  }

  // ---- A dequeued task is finished, and its joiner signalled ----

  /** The task is finished and its worker has let go of it. */
  ghost predicate Settled(s: State, t: TaskId) {
    t in s.tasks && s.tasks[t].finished && !SignalDue(s, t)
  }

  lemma HolderOf(c: Config, s: State, t: TaskId) returns (w: nat)
    requires Inv(c, s) && t in s.dequeued && !Settled(s, t)
    ensures w < |s.workers| && Busy(s.workers[w]) && s.workers[w].t == t
  {
    assert t in s.enqueued;
    if s.tasks[t].finished {
      w :| 0 <= w < |s.workers| && (s.workers[w] == Finished(t) || s.workers[w] == Reclaimed(t));
    } else {
      w :| 0 <= w < |s.workers| && Executing(s.workers[w]) && s.workers[w].t == t;
    }
  }

  /** The worker that holds a task takes it one stage further, and lets go of it at last. */
  lemma HolderStep(c: Config, s: State, a: Action, w: nat, t: TaskId)
    requires Inv(c, s) && Enabled(c, s, a) && ActorOf(a) == Some(Core(w))
    requires w < |s.workers| && Busy(s.workers[w]) && s.workers[w].t == t
    ensures var s' := Apply(c, s, a);
      || Settled(s', t)
      || (w < |s'.workers| && Busy(s'.workers[w]) && s'.workers[w].t == t
          && WorkLeft(s'.workers[w]) < WorkLeft(s.workers[w]))
  {
  }

  lemma {:induction false} HeldUntilSettled(c: Config, b: Behavior, t: TaskId, w: nat, i: nat) returns (j: nat)
    requires FairRun(c, b) && w < |b.st(i).workers| && Busy(b.st(i).workers[w]) && b.st(i).workers[w].t == t
    ensures i <= j && Settled(b.st(j), t)
    decreases WorkLeft(b.st(i).workers[w])
  {
    var k := NextAct(c, b, w, i);
    StepOf(c, b, k);
    HolderStep(c, b.st(k), b.act(k), w, t);
    if Settled(b.st(k + 1), t) {
      return k + 1;
    }
    j := HeldUntilSettled(c, b, t, w, k + 1);
  }

  /** Every task that is ever enqueued is finished, and let go of. */
  lemma EventuallySettled(c: Config, b: Behavior, t: TaskId, i: nat) returns (j: nat)
    requires FairRun(c, b) && ServesAlways(b, t) && t in b.st(i).enqueued
    ensures i <= j && Settled(b.st(j), t)
  {
    StepOf(c, b, i);
    var k := i;
    if t !in b.st(i).dequeued {
      var p :| 0 <= p < |b.st(i).queue| && b.st(i).queue[p] == t;
      k := EventuallyDequeued(c, b, t, p, i);
    }
    StepOf(c, b, k);
    if Settled(b.st(k), t) {
      return k;
    }
    var w := HolderOf(c, b.st(k), t);
    j := HeldUntilSettled(c, b, t, w, k);
  }

  /** A call of pool_task_create within a behaviour is one of those whose result the task
      is to hold from then on. */
  lemma {:induction false} CreatedSince(c: Config, b: Behavior, m: nat, i: nat)
    requires IsBehavior(c, b) && Reachable(c, b.st(0)) && b.act(m).CreateCheck? && m < i
    ensures var a := b.act(m);
      Created(c, b.st(i), a.t, a.f, a.arg, a.independent)
    decreases i
  {
    var a := b.act(m);
    assert StepAt(c, b, i - 1);
    if m == i - 1 {
      BehaviorReachable(c, b, m);
      CreatedNow(c, b.st(m), a);
    } else {
      CreatedSince(c, b, m, i - 1);
      StaysCreated(c, b.st(i - 1), b.act(i - 1), a);
    }
  }

  /** Every enqueued task is eventually finished, with the result its creator asked for. */
  lemma EveryTaskFinishes(c: Config, b: Behavior, t: TaskId, i: nat) returns (j: nat)
    requires FairRun(c, b) && ServesAlways(b, t) && t in b.st(i).enqueued
    ensures i <= j && Delivered(c, b.st(j), t)
  {
    j := EventuallySettled(c, b, t, i);
    BehaviorReachable(c, b, j);
    FinishedIsDelivered(c, b.st(j), t);
  }

  // ---- A join returns ----

  predicate JoinStep(a: Action, j: JoinerId) {
    a == JoinRead(j) || a == JoinState(j) || a == JoinLock(j)
  }

  ghost predicate JoinerEnabled(c: Config, s: State, j: JoinerId) {
    exists a :: JoinStep(a, j) && Enabled(c, s, a)
  }

  ghost predicate JoinerEnabledFrom(c: Config, b: Behavior, j: JoinerId, i: nat) {
    forall k: nat :: i <= k ==> JoinerEnabled(c, b.st(k), j)
  }

  ghost predicate JoinerActsFrom(b: Behavior, j: JoinerId, i: nat) {
    exists k: nat :: i <= k && JoinStep(b.act(k), j)
  }

  /** Weak fairness of the joining threads. */
  ghost predicate JoinersFair(c: Config, b: Behavior) {
    forall j: JoinerId, i: nat :: JoinerEnabledFrom(c, b, j, i) ==> JoinerActsFrom(b, j, i)
  }

  ghost function JoinLeft(j: Joiner): nat {
    match j
    case Called(_) => 3
    case Missed(_) => 2
    case Locking(_) => 1
    case Waiting(_) => 2
    case Returned(_, _) => 0
  }

  /** j joins a settled task, and nobody else joins it. */
  ghost predicate Alone(c: Config, s: State, j: JoinerId) {
    j in s.joiners && !Shares(c, j) && Settled(s, s.joiners[j].t)
  }

  lemma FinishedStays(c: Config, s: State, a: Action, t: TaskId)
    requires History(s) && Enabled(c, s, a) && t in s.tasks && s.tasks[t].finished
    ensures t in Apply(c, s, a).tasks && Apply(c, s, a).tasks[t].finished
  {
  }

  /** A settled task stays so. */
  lemma SettledStays(c: Config, s: State, a: Action, t: TaskId)
    requires Inv(c, s) && Enabled(c, s, a) && Settled(s, t)
    ensures Settled(Apply(c, s, a), t)
  {
    FinishedStays(c, s, a, t);
    NoNewSignal(c, s, a, t);
  }

  /** Nobody holds the lock of a settled task. */
  lemma SettledIsFree(s: State, t: TaskId)
    requires Staged(s) && Settled(s, t)
    ensures LockFree(s, t)
  {
    forall w | 0 <= w < |s.workers|
      ensures !HoldsLock(s.workers[w], t)
    {
      assert s.workers[w] == Running(t) ==> Busy(s.workers[w]) && Executing(s.workers[w]);
    }
  }

  /** A spurious wake-up does release a stranded joiner, and its join returns 0. */
  lemma SpuriousReleases(c: Config, s: State, j: JoinerId)
    requires Inv(c, s) && Stranded(s, j)
    ensures var run := [SpuriousJoiner(j), JoinLock(j)];
      CanRun(c, s, run) && After(c, s, run) == s.(joiners := s.joiners[j := Returned(s.joiners[j].t, 0)])
  {
    var t := s.joiners[j].t;
    SettledIsFree(s, t);
    var s1 := Apply(c, s, SpuriousJoiner(j));
    var s2 := Apply(c, s1, JoinLock(j));
    assert s2 == s.(joiners := s.joiners[j := Returned(t, 0)]);
    assert CanRun(c, s2, []) && After(c, s2, []) == s2;
    assert [SpuriousJoiner(j), JoinLock(j)][1..] == [JoinLock(j)];
    assert CanRun(c, s1, [JoinLock(j)]) && After(c, s1, [JoinLock(j)]) == s2;
  }

  lemma JoinerIsEnabled(c: Config, s: State, j: JoinerId) returns (a: Action)
    requires Inv(c, s) && JoinInv(c, s) && Alone(c, s, j) && !s.joiners[j].Returned?
    ensures JoinStep(a, j) && Enabled(c, s, a)
  {
    SettledIsFree(s, s.joiners[j].t);
    assert !Stranded(s, j);
    match s.joiners[j] {
      case Called(_) => a := JoinRead(j);
      case Missed(_) => a := JoinState(j);
      case Locking(_) => a := JoinLock(j);
    }
  }

  /** A joiner of a settled task only goes forward, and does not go to sleep. */
  lemma JoinerStep(c: Config, s: State, a: Action, j: JoinerId)
    requires JoinInv(c, s) && Enabled(c, s, a) && Alone(c, s, j)
    ensures var s' := Apply(c, s, a);
      && j in s'.joiners && s'.joiners[j].t == s.joiners[j].t
      && JoinLeft(s'.joiners[j]) <= JoinLeft(s.joiners[j])
      && (JoinStep(a, j) ==> JoinLeft(s'.joiners[j]) < JoinLeft(s.joiners[j]))
  {
    assert !Stranded(s, j);
  }

  lemma AloneAt(c: Config, b: Behavior, j: JoinerId, k: nat)
    requires FairRun(c, b) && Alone(c, b.st(k), j)
    ensures Alone(c, b.st(k + 1), j) && JoinLeft(b.st(k + 1).joiners[j]) <= JoinLeft(b.st(k).joiners[j])
    ensures JoinStep(b.act(k), j) ==> JoinLeft(b.st(k + 1).joiners[j]) < JoinLeft(b.st(k).joiners[j])
  {
    StepOf(c, b, k);
    SettledStays(c, b.st(k), b.act(k), b.st(k).joiners[j].t);
    JoinerStep(c, b.st(k), b.act(k), j);
  }

  lemma {:induction false} AloneFrom(c: Config, b: Behavior, j: JoinerId, i: nat, k: nat)
    requires FairRun(c, b) && Alone(c, b.st(i), j) && i <= k
    ensures Alone(c, b.st(k), j) && JoinLeft(b.st(k).joiners[j]) <= JoinLeft(b.st(i).joiners[j])
    decreases k - i
  {
    if i < k {
      AloneFrom(c, b, j, i, k - 1);
      AloneAt(c, b, j, k - 1);
    }
  }

  lemma {:induction false} AloneReturns(c: Config, b: Behavior, j: JoinerId, i: nat) returns (k: nat)
    requires FairRun(c, b) && JoinersFair(c, b) && Alone(c, b.st(i), j)
    ensures i <= k && Alone(c, b.st(k), j) && b.st(k).joiners[j].Returned?
    decreases JoinLeft(b.st(i).joiners[j])
  {
    if m: nat :| i <= m && JoinStep(b.act(m), j) {
      AloneFrom(c, b, j, i, m);
      AloneAt(c, b, j, m);
      k := AloneReturns(c, b, j, m + 1);
    } else {
      k := NeverActs(c, b, j, i);
    }
  }

  /** A joiner that never acts again has returned. */
  lemma NeverActs(c: Config, b: Behavior, j: JoinerId, i: nat) returns (k: nat)
    requires FairRun(c, b) && JoinersFair(c, b) && Alone(c, b.st(i), j) && !JoinerActsFrom(b, j, i)
    ensures i <= k && Alone(c, b.st(k), j) && b.st(k).joiners[j].Returned?
  {
    k :| i <= k && !JoinerEnabled(c, b.st(k), j);
    AloneFrom(c, b, j, i, k);
    StepOf(c, b, k);
    if !b.st(k).joiners[j].Returned? {
      var a := JoinerIsEnabled(c, b.st(k), j);
    }
  }

  lemma JoinerKept(c: Config, s: State, a: Action, j: JoinerId)
    requires Enabled(c, s, a) && j in s.joiners
    ensures j in Apply(c, s, a).joiners
  {
  }

  lemma {:induction false} JoinerStays(c: Config, b: Behavior, j: JoinerId, i: nat, k: nat)
    requires FairRun(c, b) && j in b.st(i).joiners && i <= k
    ensures j in b.st(k).joiners
    decreases k - i
  {
    if i < k {
      JoinerStays(c, b, j, i, k - 1);
      StepOf(c, b, k - 1);
      JoinerKept(c, b.st(k - 1), b.act(k - 1), j);
    }
  }

  /** Every pool_join_task of a task that nobody else joins returns after the task has the
      result its creator asked for, and it returns 0 unless the pool is shut down. */
  lemma EveryJoinReturns(c: Config, b: Behavior, j: JoinerId, i: nat) returns (k: nat)
    requires FairRun(c, b) && JoinersFair(c, b) && j in b.st(i).joiners && !Shares(c, j)
    requires ServesAlways(b, b.st(i).joiners[j].t)
    ensures i <= k && j in c.joins && j in b.st(k).joiners
    ensures b.st(k).joiners[j].Returned? && b.st(k).joiners[j].t == c.joins[j]
    ensures b.st(k).joiners[j].code == 0 || (b.st(k).joiners[j].code == -1 && b.st(k).phase == SHUTDOWN)
    ensures Delivered(c, b.st(k), c.joins[j])
  {
    StepOf(c, b, i);
    var m := EventuallySettled(c, b, c.joins[j], i);
    JoinerStays(c, b, j, i, m);
    StepOf(c, b, m);
    k := AloneReturns(c, b, j, m);
    StepOf(c, b, k);
    BehaviorReachable(c, b, k);
    FinishedIsDelivered(c, b.st(k), c.joins[j]);
    JoinReturnsAt(c, b, j, k);
  }

  lemma JoinReturnsAt(c: Config, b: Behavior, j: JoinerId, k: nat)
    requires FairRun(c, b) && j in b.st(k).joiners && b.st(k).joiners[j].Returned?
    ensures b.st(k).joiners[j].code == 0 || (b.st(k).joiners[j].code == -1 && b.st(k).phase == SHUTDOWN)
  {
    BehaviorReachable(c, b, k);
    JoinReturns(c, b.st(k), j);
  }

  // ---- Exactly when there is progress in an active pool ----

  /** A fair behaviour in which shutdown is never called. */
  ghost predicate ActiveRun(c: Config, b: Behavior) {
    IsBehavior(c, b) && Fair(c, b) && Reachable(c, b.st(0)) && forall k: nat :: b.st(k).phase == ACTIVE
  }

  lemma {:induction false} ReadyWorker(ws: seq<Worker>) returns (w: nat)
    requires Sum(ws, IsReady) > 0
    ensures w < |ws| && ws[w] == Ready
  {
    w := |ws| - 1;
    if ws[w] != Ready {
      w := ReadyWorker(ws[..w]);
    }
  }

  /** Work conservation leaves a worker awake as long as something is queued. */
  lemma ActiveHasAwake(c: Config, s: State)
    requires Inv(c, s) && c.workers > 0 && s.phase == ACTIVE && s.queue != []
    ensures SomeoneAwake(s)
  {
    if Asleep in s.workers {
      var w := ReadyWorker(s.workers);
      assert Awake(s, w);
    } else {
      assert s.workers[0] in s.workers;
      assert Awake(s, 0);
    }
  }

  lemma ActiveIsLively(c: Config, b: Behavior)
    requires ActiveRun(c, b) && c.workers > 0
    ensures Lively(c, b)
  {
    forall k: nat | b.st(k).queue != []
      ensures SomeoneAwake(b.st(k))
    {
      BehaviorReachable(c, b, k);
      ReachableInv(c, b.st(k));
      ActiveHasAwake(c, b.st(k));
    }
  }

  ghost predicate EventuallyFinished(b: Behavior, t: TaskId, i: nat) {
    exists j: nat :: i <= j && t in b.st(j).tasks && b.st(j).tasks[t].finished
  }

  ghost predicate TasksFinish(c: Config) {
    forall b, t, i: nat :: ActiveRun(c, b) && t in b.st(i).enqueued ==> EventuallyFinished(b, t, i)
  }

  ghost predicate EventuallyReturned(b: Behavior, j: JoinerId, i: nat) {
    exists k: nat :: i <= k && j in b.st(k).joiners && b.st(k).joiners[j].Returned?
  }

  ghost predicate JoinsReturn(c: Config) {
    forall b, j, i: nat :: ActiveRun(c, b) && JoinersFair(c, b) && j in b.st(i).joiners ==> EventuallyReturned(b, j, i)
  }

  /** All workers sleep, and every joiner sleeps or has returned. */
  ghost predicate AtRest(s: State) {
    && s.phase == ACTIVE && s.closer == NotCalled
    && (forall w :: 0 <= w < |s.workers| ==> s.workers[w] == Asleep)
    && (forall j :: j in s.joiners ==> s.joiners[j].Waiting? || s.joiners[j].Returned?)
  }

  /** A state at rest may stay as it is for ever: nobody has a step to take. */
  lemma RestForever(c: Config, s: State) returns (b: Behavior)
    requires Reachable(c, s) && AtRest(s)
    ensures ActiveRun(c, b) && JoinersFair(c, b) && forall k: nat :: b.st(k) == s
  {
    b := Behavior(_ => s, _ => Stutter);
    assert forall k: nat :: StepAt(c, b, k);
    forall who, i: nat
      ensures !EnabledFrom(c, b, who, i)
    {
      assert !ActorEnabled(c, b.st(i), who);
    }
    forall j: JoinerId, i: nat
      ensures !JoinerEnabledFrom(c, b, j, i)
    {
      assert !JoinerEnabled(c, b.st(i), j);
    }
  }

  /** With nothing queued, idle workers go to sleep. */
  lemma {:induction false} AllToSleep(c: Config, s: State, n: nat) returns (s': State)
    requires Reachable(c, s) && s.phase == ACTIVE && s.queue == [] && n <= |s.workers|
    requires forall w :: 0 <= w < |s.workers| ==> s.workers[w] == if w < n then Asleep else Ready
    ensures Reachable(c, s') && s' == s.(workers := s'.workers)
    ensures |s'.workers| == |s.workers| && forall w :: 0 <= w < |s.workers| ==> s'.workers[w] == Asleep
    decreases |s.workers| - n
  {
    s' := s;
    if n < |s.workers| {
      var next := Step(c, s, WorkerLock(n), s.(workers := s.workers[n := Asleep]));
      s' := AllToSleep(c, next, n + 1);
    }
  }

  lemma NobodyFinishes(c: Config)
    requires c.workers == 0
    ensures !TasksFinish(c)
  {
    var k := ReachQueued(c, 0);
    var s := Queued(c, 0, k);
    var b := RestForever(c, s);
    assert 0 in b.st(0).enqueued && !EventuallyFinished(b, 0, 0);
  }

  /** While the pool stays active, all tasks are finished on every fair behaviour if and
      only if there is a worker. */
  lemma TasksFinishExactly(c: Config)
    ensures TasksFinish(c) <==> c.workers > 0
  {
    if c.workers > 0 {
      forall b, t, i: nat | ActiveRun(c, b) && t in b.st(i).enqueued
        ensures EventuallyFinished(b, t, i)
      {
        ActiveIsLively(c, b);
        var j := EveryTaskFinishes(c, b, t, i);
      }
    } else {
      NobodyFinishes(c);
    }
  }

  lemma JoinWithoutWorkers(c: Config, j: JoinerId)
    requires c.workers == 0 && j in c.joins
    ensures !JoinsReturn(c)
  {
    var t := c.joins[j];
    var k := ReachQueued(c, t);
    var s := JoinSleeps(c, Queued(c, t, k), j);
    var b := RestForever(c, s);
    assert j in b.st(0).joiners && !EventuallyReturned(b, j, 0);
  }

  lemma JoinShared(c: Config, j: JoinerId, k: JoinerId)
    requires c.workers > 0 && j in c.joins && k in c.joins && j != k && c.joins[j] == c.joins[k]
    ensures !JoinsReturn(c)
  {
    var t := c.joins[j];
    var stranded := ReachStranded(c, j, k);
    var asleep := AllToSleep(c, stranded, 0);
    var s := LastReturns(c, asleep, j);
    var b := RestForever(c, s);
    assert k in b.st(0).joiners && !EventuallyReturned(b, k, 0);
  }

  /** A joiner that has been woken after the task was finished returns. */
  lemma LastReturns(c: Config, s: State, j: JoinerId) returns (s': State)
    requires Reachable(c, s) && j in s.joiners && s.joiners[j].Locking? && s.joiners[j].t in s.tasks
    requires s.tasks[s.joiners[j].t].finished && forall w :: 0 <= w < |s.workers| ==> s.workers[w] == Asleep
    ensures Reachable(c, s') && s' == s.(joiners := s.joiners[j := Returned(s.joiners[j].t, 0)])
  {
    s' := Step(c, s, JoinLock(j), s.(joiners := s.joiners[j := Returned(s.joiners[j].t, 0)]));
  }

  /** While the pool stays active, all joins return on every fair behaviour if and only
      if there is a worker and no two threads join the same task (or nobody joins). */
  lemma JoinsReturnExactly(c: Config)
    ensures JoinsReturn(c) <==> c.joins == map[] || (c.workers > 0 && OneJoinerEach(c))
  {
    if c.joins == map[] || (c.workers > 0 && OneJoinerEach(c)) {
      forall b, j, i: nat | ActiveRun(c, b) && JoinersFair(c, b) && j in b.st(i).joiners
        ensures EventuallyReturned(b, j, i)
      {
        BehaviorReachable(c, b, i);
        ReachableJoinInv(c, b.st(i));
        assert j in c.joins;
        ActiveIsLively(c, b);
        var k := EveryJoinReturns(c, b, j, i);
      }
    } else if c.workers == 0 {
      var j :| j in c.joins;
      JoinWithoutWorkers(c, j);
    } else {
      var j, k :| j in c.joins && k in c.joins && j != k && c.joins[j] == c.joins[k];
      JoinShared(c, j, k);
    }
  }
}
