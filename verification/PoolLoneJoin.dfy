/** Exactly when the join of a task that nobody else joins returns at a shutdown, from any
    state in which pool_shutdown is called (pool.c 73-183). */
module PoolLoneJoin {
  import opened Wrappers
  import opened PoolProtocol
  import opened PoolSafety
  import opened PoolJoin
  import opened PoolShutdown
  import opened PoolProgress
  import opened PoolDrain
  import opened PoolReturn
  import opened PoolLifetime

  /** The call finds something queued, and t is a task that nobody may ever run: its
      creator is between its state check and its enqueue, or there is no worker. */
  ghost predicate MayBeLeft(c: Config, s: State, t: TaskId) {
    && s.queue != [] && t in s.tasks && !s.tasks[t].independent
    && (t in s.pending || c.workers == 0)
  }

  // ---- A task that is enqueued before the call of a pool with workers is served ----

  /** The workers that are awake are enough for t and the tasks before it. */
  ghost predicate Guarded(s: State, t: TaskId) {
    forall p: nat :: QueuedAt(s, t, p) ==>
      s.workers != [] && Exited !in s.workers && (Asleep in s.workers ==> p + 1 <= Sum(s.workers, IsReady))
  }

  lemma GuardedTake(s: State, w: nat, t: TaskId)
    requires WorkerAt(s, w) && s.workers[w] == Ready && s.queue != [] && Guarded(s, t)
    ensures Guarded(DoWorkerLock(s, w), t)
  {
    var s' := DoWorkerLock(s, w);
    SumUpdate(s.workers, w, Taken(s.queue[0]), IsReady);
    forall p: nat | QueuedAt(s', t, p)
      ensures s'.workers != [] && Exited !in s'.workers
      ensures Asleep in s'.workers ==> p + 1 <= Sum(s'.workers, IsReady)
    {
      assert QueuedAt(s, t, p + 1);
    }
  }

  lemma GuardedOther(c: Config, s: State, a: Action, t: TaskId)
    requires Enabled(c, s, a) && Guarded(s, t) && !a.WorkerLock? && !a.ShutdownCall? && !a.ShutdownRecheck?
    requires a.Enqueue? ==> a.t != t
    ensures Guarded(Apply(c, s, a), t)
  {
    var s' := Apply(c, s, a);
    MovedWorker(c, s, a);
    if Moved(a) != None {
      SumUpdate(s.workers, Moved(a).value, s'.workers[Moved(a).value], IsReady);
    }
    forall p: nat | QueuedAt(s', t, p)
      ensures QueuedAt(s, t, p)
    {
    }
  }

  lemma GuardedStep(c: Config, s: State, a: Action, t: TaskId)
    requires History(s) && t in s.enqueued && Guarded(s, t) && Enabled(c, s, a)
    ensures Guarded(Apply(c, s, a), t)
  {
    if a.WorkerLock? {
      if s.queue != [] {
        GuardedTake(s, a.w, t);
      }
    } else if a.ShutdownCall? || a.ShutdownRecheck? {
      GuardedFlush(s, if a.ShutdownCall? then s.(phase := FLUSH) else s, t);
    } else {
      GuardedOther(c, s, a, t);
    }
  }

  lemma GuardedFlush(s: State, s1: State, t: TaskId)
    requires Guarded(s, t) && s1 == s.(phase := s1.phase)
    ensures Guarded(DoFlush(s1), t)
  {
    forall p: nat | QueuedAt(DoFlush(s1), t, p)
      ensures QueuedAt(s, t, p)
    {
    }
  }

  lemma {:induction false} GuardedFrom(c: Config, b: Behavior, t: TaskId, k: nat)
    requires FairRun(c, b) && t in b.st(0).enqueued && Guarded(b.st(0), t)
    ensures t in b.st(k).enqueued && Guarded(b.st(k), t)
  {
    if k > 0 {
      GuardedFrom(c, b, t, k - 1);
      StepOf(c, b, k - 1);
      KeepsTasks(c, b.st(k - 1), b.act(k - 1));
      GuardedStep(c, b.st(k - 1), b.act(k - 1), t);
    }
  }

  lemma GuardedIsServed(c: Config, b: Behavior, t: TaskId)
    requires FairRun(c, b) && t in b.st(0).enqueued && Guarded(b.st(0), t)
    ensures ServesAlways(b, t)
  {
    forall k: nat | t in b.st(k).queue
      ensures SomeoneAwake(b.st(k))
    {
      GuardedFrom(c, b, t, k);
      var s := b.st(k);
      var p: nat :| p < |s.queue| && s.queue[p] == t;
      assert QueuedAt(s, t, p);
      if Asleep in s.workers {
        var w := ReadyWorker(s.workers);
        assert Awake(s, w);
      } else {
        assert s.workers[0] in s.workers;
        assert Awake(s, 0);
      }
    }
  }

  /** At the call, work conservation guards every queued task. */
  lemma CallGuards(c: Config, s: State, t: TaskId)
    requires Inv(c, s) && s.closer == NotCalled && (c.workers > 0 || s.queue == [])
    ensures Guarded(s, t)
  {
  }

  // ---- A task that is enqueued after an announced shutdown is not waited for ----

  /** j has not come to line 116. */
  ghost predicate NotWaiting(s: State, j: JoinerId) {
    j in s.joiners ==> s.joiners[j].Called? || s.joiners[j].Missed? || s.joiners[j].Returned?
  }

  lemma NotWaitingStep(c: Config, s: State, a: Action, j: JoinerId)
    requires s.phase == SHUTDOWN && NotWaiting(s, j) && Enabled(c, s, a)
    ensures NotWaiting(Apply(c, s, a), j)
    ensures j in s.joiners ==> j in Apply(c, s, a).joiners
    ensures j in s.joiners ==> JoinLeft(Apply(c, s, a).joiners[j]) <= JoinLeft(s.joiners[j])
    ensures j in s.joiners && JoinStep(a, j) ==> JoinLeft(Apply(c, s, a).joiners[j]) < JoinLeft(s.joiners[j])
  {
  }

  lemma NotWaitingAt(c: Config, b: Behavior, j: JoinerId, k: nat)
    requires FairRun(c, b) && b.st(k).phase == SHUTDOWN && NotWaiting(b.st(k), j)
    ensures b.st(k + 1).phase == SHUTDOWN && NotWaiting(b.st(k + 1), j)
    ensures j in b.st(k).joiners ==> j in b.st(k + 1).joiners
    ensures j in b.st(k).joiners ==> JoinLeft(b.st(k + 1).joiners[j]) <= JoinLeft(b.st(k).joiners[j])
    ensures j in b.st(k).joiners && JoinStep(b.act(k), j) ==>
      JoinLeft(b.st(k + 1).joiners[j]) < JoinLeft(b.st(k).joiners[j])
  {
    StepOf(c, b, k);
    AnnouncedStep(c, b.st(k), b.act(k));
    NotWaitingStep(c, b.st(k), b.act(k), j);
  }

  lemma {:induction false} NotWaitingFrom(c: Config, b: Behavior, j: JoinerId, i: nat, k: nat)
    requires FairRun(c, b) && b.st(i).phase == SHUTDOWN && NotWaiting(b.st(i), j) && i <= k
    ensures b.st(k).phase == SHUTDOWN && NotWaiting(b.st(k), j)
    ensures j in b.st(i).joiners ==> j in b.st(k).joiners
    ensures j in b.st(i).joiners ==> JoinLeft(b.st(k).joiners[j]) <= JoinLeft(b.st(i).joiners[j])
    decreases k - i
  {
    if i < k {
      NotWaitingFrom(c, b, j, i, k - 1);
      NotWaitingAt(c, b, j, k - 1);
    }
  }

  lemma CalledIsEnabled(c: Config, s: State, j: JoinerId)
    requires JoinersKnown(c, s) && j in s.joiners && (s.joiners[j].Called? || s.joiners[j].Missed?)
    ensures JoinerEnabled(c, s, j)
  {
    var a := if s.joiners[j].Called? then JoinRead(j) else JoinState(j);
    assert JoinStep(a, j) && Enabled(c, s, a);
  }

  lemma StopsReturned(c: Config, b: Behavior, j: JoinerId, i: nat) returns (k: nat)
    requires FairRun(c, b) && JoinersFair(c, b) && b.st(i).phase == SHUTDOWN && !JoinerActsFrom(b, j, i)
    requires NotWaiting(b.st(i), j) && j in b.st(i).joiners
    ensures i <= k && j in b.st(k).joiners && b.st(k).joiners[j].Returned?
  {
    k :| i <= k && !JoinerEnabled(c, b.st(k), j);
    NotWaitingFrom(c, b, j, i, k);
    StepOf(c, b, k);
    if !b.st(k).joiners[j].Returned? {
      CalledIsEnabled(c, b.st(k), j);
    }
  }

  lemma {:induction false} NotWaitingReturns(c: Config, b: Behavior, j: JoinerId, i: nat) returns (k: nat)
    requires FairRun(c, b) && JoinersFair(c, b) && b.st(i).phase == SHUTDOWN
    requires NotWaiting(b.st(i), j) && j in b.st(i).joiners
    ensures i <= k && j in b.st(k).joiners && b.st(k).joiners[j].Returned?
    decreases JoinLeft(b.st(i).joiners[j])
  {
    if m: nat :| i <= m && JoinStep(b.act(m), j) {
      NotWaitingFrom(c, b, j, i, m);
      NotWaitingAt(c, b, j, m);
      k := NotWaitingReturns(c, b, j, m + 1);
    } else {
      k := StopsReturned(c, b, j, i);
    }
  }

  // ---- Where a task comes from that is joined after the call ----

  lemma TasksFrom(c: Config, b: Behavior, t: TaskId, k: nat)
    requires FairRun(c, b) && b.act(0) == ShutdownCall && t in b.st(k).enqueued
    ensures t in b.st(0).tasks && (t in b.st(0).enqueued || t in b.st(0).pending)
    ensures t in b.st(k).tasks && b.st(k).tasks[t].independent == b.st(0).tasks[t].independent
  {
    KnownFrom(c, b, t, k);
    StepOf(c, b, 0);
    StepOf(c, b, k);
  }

  /** No task is created once the shutdown has begun. */
  lemma {:induction false} KnownFrom(c: Config, b: Behavior, t: TaskId, k: nat)
    requires FairRun(c, b) && b.act(0) == ShutdownCall
    ensures k > 0 ==> b.st(k).phase != ACTIVE
    ensures t in b.st(k).tasks <==> t in b.st(0).tasks
    ensures t in b.st(0).tasks ==> b.st(k).tasks[t].independent == b.st(0).tasks[t].independent
  {
    if k > 0 {
      KnownFrom(c, b, t, k - 1);
      StepOf(c, b, k - 1);
      SameTasks(c, b.st(k - 1), b.act(k - 1), t);
    }
  }

  lemma SameTasks(c: Config, s: State, a: Action, t: TaskId)
    requires Phases(c, s) && Enabled(c, s, a) && (s.phase != ACTIVE || a == ShutdownCall)
    ensures Apply(c, s, a).phase != ACTIVE
    ensures t in Apply(c, s, a).tasks <==> t in s.tasks
    ensures t in s.tasks ==> Apply(c, s, a).tasks[t].independent == s.tasks[t].independent
  {
  }

  // ---- The join returns ----

  lemma ServedLoneReturns(c: Config, b: Behavior, j: JoinerId, i: nat)
    requires FairRun(c, b) && JoinersFair(c, b) && !Shares(c, j) && j in b.st(i).joiners
    requires ServesAlways(b, b.st(i).joiners[j].t)
    ensures EventuallyReturned(b, j, i)
  {
    var k := EveryJoinReturns(c, b, j, i);
  }

  lemma LateLoneReturns(c: Config, b: Behavior, j: JoinerId, i: nat)
    requires FairRun(c, b) && JoinersFair(c, b) && b.act(0) == ShutdownCall && b.st(0).queue == []
    requires j !in b.st(0).joiners && j in b.st(i).joiners
    ensures EventuallyReturned(b, j, i)
  {
    StepOf(c, b, 0);
    NotWaitingFrom(c, b, j, 1, i);
    var k := NotWaitingReturns(c, b, j, i);
  }

  lemma LoneReturns(c: Config, b: Behavior, s: State, j: JoinerId, i: nat)
    requires Reachable(c, s) && s.closer == NotCalled && StartsShutdown(c, b, s) && JoinersFair(c, b)
    requires j in c.joins && !Shares(c, j) && !MayBeLeft(c, s, c.joins[j]) && j in b.st(i).joiners
    ensures EventuallyReturned(b, j, i)
  {
    var t := c.joins[j];
    StepOf(c, b, 0);
    StepOf(c, b, i);
    TasksFrom(c, b, t, i);
    if t in s.enqueued {
      CallGuards(c, s, t);
      GuardedIsServed(c, b, t);
      ServedLoneReturns(c, b, j, i);
    } else {
      LateLoneReturns(c, b, j, i);
    }
  }

  // ---- The join is lost ----

  /** Every worker has left a flush that nobody will end. */
  ghost predicate Deserted(c: Config, s: State) {
    Reachable(c, s) && AllExited(s) && s.closer == FlushAsleep
  }

  ghost predicate AtEase(s: State, j: JoinerId) {
    j in s.joiners && (s.joiners[j].Waiting? || s.joiners[j].Returned?)
  }

  ghost function EaseLeft(s: State, j: JoinerId): nat
    requires j in s.joiners
  {
    if AtEase(s, j) then 0 else JoinLeft(s.joiners[j])
  }

  /** Only joiner j is elsewhere in s'. */
  ghost predicate OnlyMoves(s: State, s': State, j: JoinerId) {
    j in s.joiners && j in s'.joiners && s' == s.(joiners := s.joiners[j := s'.joiners[j]])
  }

  lemma EaseStep(c: Config, s: State, j: JoinerId) returns (a: Action)
    requires JoinersKnown(c, s) && Phases(c, s) && AllExited(s) && s.closer == FlushAsleep
    requires j in s.joiners && !AtEase(s, j)
    ensures Enabled(c, s, a) && OnlyMoves(s, Apply(c, s, a), j)
    ensures EaseLeft(Apply(c, s, a), j) < EaseLeft(s, j)
  {
    match s.joiners[j] {
      case Called(_) => a := JoinRead(j);
      case Missed(_) => a := JoinState(j);
      case Locking(_) => a := JoinLock(j);
    }
  }

  lemma OnlyMovesTwice(s: State, s1: State, s2: State, j: JoinerId)
    requires OnlyMoves(s, s1, j) && OnlyMoves(s1, s2, j)
    ensures OnlyMoves(s, s2, j)
  {
    var x := s2.joiners[j];
    assert s1.joiners[j := x] == s.joiners[j := x];
  }

  /** One joiner goes as far as it can. */
  lemma {:induction false} RestOne(c: Config, s: State, j: JoinerId) returns (run: seq<Action>)
    requires Deserted(c, s) && j in s.joiners
    ensures CanRun(c, s, run) && Deserted(c, After(c, s, run)) && AtEase(After(c, s, run), j)
    ensures OnlyMoves(s, After(c, s, run), j)
    decreases EaseLeft(s, j)
  {
    if AtEase(s, j) {
      run := [];
      assert s.joiners[j := s.joiners[j]] == s.joiners;
    } else {
      ReachableJoinInv(c, s);
      var a := EaseStep(c, s, j);
      ReachableStep(c, s, a);
      var s1 := Apply(c, s, a);
      var rest := RestOne(c, s1, j);
      CanRunCons(c, s, a, rest);
      run := [a] + rest;
      OnlyMovesTwice(s, s1, After(c, s1, rest), j);
    }
  }

  /** All joiners in `todo` do so, one after the other. */
  lemma {:induction false} RestAll(c: Config, s: State, todo: set<JoinerId>) returns (run: seq<Action>)
    requires Deserted(c, s) && todo <= s.joiners.Keys
    requires forall j :: j in s.joiners && j !in todo ==> AtEase(s, j)
    ensures CanRun(c, s, run) && Deserted(c, After(c, s, run))
    ensures After(c, s, run).joiners.Keys == s.joiners.Keys
    ensures After(c, s, run) == s.(joiners := After(c, s, run).joiners)
    ensures forall j :: j in s.joiners ==> AtEase(After(c, s, run), j)
    decreases todo
  {
    if todo == {} {
      run := [];
    } else {
      var j :| j in todo;
      var first := RestOne(c, s, j);
      var s1 := After(c, s, first);
      assert s1.joiners.Keys == s.joiners.Keys;
      var rest := RestAll(c, s1, todo - {j});
      RunsCompose(c, s, first, rest);
      run := first + rest;
    }
  }

  /** All joiners are at ease, and j waits for a signal that will not come. */
  ghost predicate WaitsInVain(c: Config, s: State, j: JoinerId) {
    && AllExited(s) && s.closer == FlushAsleep && (forall i :: i in s.joiners ==> AtEase(s, i))
    && j in s.joiners && s.joiners[j].Waiting?
  }

  lemma FromJoined(c: Config, s: State, j: JoinerId) returns (run: seq<Action>)
    requires Deserted(c, s) && j in s.joiners && j in c.joins && Unfinished(s, c.joins[j])
    ensures CanRun(c, s, run) && WaitsInVain(c, After(c, s, run), j)
  {
    run := RestAll(c, s, s.joiners.Keys);
    ReachableJoinInv(c, After(c, s, run));
  }

  lemma FromEnqueued(c: Config, s: State, j: JoinerId) returns (run: seq<Action>)
    requires Deserted(c, s) && j in c.joins && Unfinished(s, c.joins[j])
    ensures CanRun(c, s, run) && WaitsInVain(c, After(c, s, run), j)
  {
    if j in s.joiners {
      run := FromJoined(c, s, j);
    } else {
      ReachableStep(c, s, JoinCall(j));
      var rest := FromJoined(c, Apply(c, s, JoinCall(j)), j);
      CanRunCons(c, s, JoinCall(j), rest);
      run := [JoinCall(j)] + rest;
    }
  }

  /** t is enqueued and unfinished, or will be when its creator goes on. */
  ghost predicate StillToRun(s: State, t: TaskId) {
    t in s.tasks && !s.tasks[t].independent && !s.tasks[t].finished && (t in s.pending || t in s.enqueued)
  }

  lemma FromDeserted(c: Config, s: State, j: JoinerId) returns (run: seq<Action>)
    requires Deserted(c, s) && j in c.joins && StillToRun(s, c.joins[j])
    ensures CanRun(c, s, run) && WaitsInVain(c, After(c, s, run), j)
  {
    var t := c.joins[j];
    if t in s.enqueued {
      run := FromEnqueued(c, s, j);
    } else {
      var s1 := DoEnqueue(s, t, WakeCloser);
      var s2 := DoFlush(s1);
      assert t == s2.enqueued[|s.enqueued|];
      ReachableStep(c, s, Enqueue(t, WakeCloser));
      ReachableStep(c, s1, ShutdownRecheck);
      var rest := FromEnqueued(c, s2, j);
      CanRunCons(c, s1, ShutdownRecheck, rest);
      CanRunCons(c, s, Enqueue(t, WakeCloser), [ShutdownRecheck] + rest);
      run := [Enqueue(t, WakeCloser)] + ([ShutdownRecheck] + rest);
    }
  }

  lemma RunReaches(c: Config, s: State, run: seq<Action>)
    requires Reachable(c, s) && CanRun(c, s, run)
    ensures Reachable(c, After(c, s, run))
  {
    var first :| CanRun(c, Start(c), first) && After(c, Start(c), first) == s;
    RunsCompose(c, Start(c), first, run);
  }

  lemma {:induction false} RunKeepsTasks(c: Config, s: State, run: seq<Action>)
    requires Inv(c, s) && CanRun(c, s, run)
    ensures TasksKept(s, After(c, s, run))
    decreases |run|
  {
    if run != [] {
      KeepsTasks(c, s, run[0]);
      InvStep(c, s, run[0]);
      RunKeepsTasks(c, Apply(c, s, run[0]), run[1..]);
    }
  }

  /** The workers leave, and the task is still there. */
  lemma Desert(c: Config, s: State, t: TaskId) returns (run: seq<Action>)
    requires Reachable(c, s) && s.closer == FlushAsleep && t in s.tasks && !s.tasks[t].independent
    requires c.workers == 0 || (t in s.pending && Leaving(c, s))
    ensures CanRun(c, s, run) && Deserted(c, After(c, s, run)) && StillToRun(After(c, s, run), t)
  {
    ReachableInv(c, s);
    if c.workers == 0 {
      run := [];
    } else {
      run := WorkersRunOut(c, s);
      RunReaches(c, s, run);
      RunKeepsTasks(c, s, run);
    }
  }

  lemma LeftIsLost(c: Config, s: State, j: JoinerId)
    requires Reachable(c, s) && s.closer == NotCalled && j in c.joins && MayBeLeft(c, s, c.joins[j])
    ensures exists b :: LosesJoin(c, s, b, j)
  {
    var s1 := DoFlush(s.(phase := FLUSH));
    ReachableInv(c, s);
    ReachableStep(c, s, ShutdownCall);
    if c.workers > 0 {
      CallIsLeaving(c, s);
    }
    var out := Desert(c, s1, c.joins[j]);
    var rest := FromDeserted(c, After(c, s1, out), j);
    RunsCompose(c, s1, out, rest);
    CanRunCons(c, s, ShutdownCall, out + rest);
    var run := [ShutdownCall] + (out + rest);
    GoneIsStill(c, After(c, s, run));
    WaitsForGood(c, s, run, j);
  }

  /** From any state in which pool_shutdown is called, the join of a task that nobody else
      joins returns on every fair behaviour if and only if the queue is empty, or the task
      can no longer be joined, or it is enqueued already and there is a worker. */
  lemma LoneJoinReturnsExactly(c: Config, s: State, j: JoinerId)
    requires Reachable(c, s) && s.closer == NotCalled && j in c.joins && !Shares(c, j)
    ensures (forall b :: !LosesJoin(c, s, b, j)) <==> !MayBeLeft(c, s, c.joins[j])
  {
    if MayBeLeft(c, s, c.joins[j]) {
      LeftIsLost(c, s, j);
    } else {
      forall b
        ensures !LosesJoin(c, s, b, j)
      {
        if StartsShutdown(c, b, s) && JoinersFair(c, b) {
          forall i: nat | j in b.st(i).joiners
            ensures EventuallyReturned(b, j, i)
          {
            LoneReturns(c, b, s, j, i);
          }
        }
      }
    }
  }
}
