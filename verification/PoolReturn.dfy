/** When pool_shutdown returns, and when the joins do that it overlaps with
    (pool.c 110-121, 160-183). */
module PoolReturn {
  import opened Wrappers
  import opened PoolProtocol
  import opened PoolSafety
  import opened PoolJoin
  import opened PoolShutdown
  import opened PoolProgress
  import opened PoolDrain

  // ---- Once the shutdown is announced, it returns, whatever creators do ----

  ghost predicate Announced(c: Config, s: State) {
    Inv(c, s) && s.phase == SHUTDOWN
  }

  /** The work left, and what pending creators can still add. */
  ghost function Toll(c: Config, s: State): nat {
    Left(c, s) + 6 * |s.pending|
  }

  lemma LateEnqueue(c: Config, s: State, t: TaskId, wake: Wake)
    requires Announced(c, s) && Enabled(c, s, Enqueue(t, wake))
    ensures Toll(c, Apply(c, s, Enqueue(t, wake))) < Toll(c, s)
  {
    assert wake == WakeNobody;
    assert |s.pending - {t}| == |s.pending| - 1;
  }

  lemma AnnouncedStep(c: Config, s: State, a: Action)
    requires Announced(c, s) && Enabled(c, s, a)
    ensures Announced(c, Apply(c, s, a)) && Toll(c, Apply(c, s, a)) <= Toll(c, s)
    ensures ActorOf(a) != None ==> Toll(c, Apply(c, s, a)) < Toll(c, s)
  {
    InvStep(c, s, a);
    if a.Enqueue? {
      LateEnqueue(c, s, a.t, a.wake);
    } else {
      StepReducesWork(c, s, a);
    }
  }

  lemma StillWilling(c: Config, s: State, a: Action, who: Actor)
    requires Exits(s) && Phases(c, s) && s.phase == SHUTDOWN
    requires Willing(s, who) && Enabled(c, s, a) && ActorOf(a) != Some(who)
    ensures Willing(Apply(c, s, a), who)
  {
  }

  lemma SomeoneLeft(c: Config, s: State) returns (who: Actor)
    requires Announced(c, s) && s.closer != Freed
    ensures Willing(s, who)
  {
    if w :| 0 <= w < |s.workers| && s.workers[w] != Exited {
      who := Core(w);
    } else {
      who := ClosingThread;
    }
  }

  lemma AnnouncedAt(c: Config, b: Behavior, k: nat, who: Actor)
    requires IsBehavior(c, b) && Announced(c, b.st(k))
    ensures Announced(c, b.st(k + 1)) && Toll(c, b.st(k + 1)) <= Toll(c, b.st(k))
    ensures ActorOf(b.act(k)) == Some(who) ==> Toll(c, b.st(k + 1)) < Toll(c, b.st(k))
    ensures Willing(b.st(k), who) && ActorOf(b.act(k)) != Some(who) ==> Willing(b.st(k + 1), who)
  {
    assert StepAt(c, b, k);
    AnnouncedStep(c, b.st(k), b.act(k));
    if Willing(b.st(k), who) && ActorOf(b.act(k)) != Some(who) {
      StillWilling(c, b.st(k), b.act(k), who);
    }
  }

  lemma {:induction false} AnnouncedUntil(c: Config, b: Behavior, who: Actor, i: nat, j: nat)
    requires IsBehavior(c, b) && Announced(c, b.st(i)) && Willing(b.st(i), who) && i <= j
    requires forall k: nat :: i <= k < j ==> ActorOf(b.act(k)) != Some(who)
    ensures Announced(c, b.st(j)) && Willing(b.st(j), who) && Toll(c, b.st(j)) <= Toll(c, b.st(i))
    decreases j - i
  {
    if i < j {
      AnnouncedUntil(c, b, who, i, j - 1);
      AnnouncedAt(c, b, j - 1, who);
    }
  }

  /** The first step of a willing thread. */
  lemma FirstAct(c: Config, b: Behavior, who: Actor, i: nat) returns (j: nat)
    requires IsBehavior(c, b) && Fair(c, b) && Announced(c, b.st(i)) && Willing(b.st(i), who)
    ensures i <= j && ActorOf(b.act(j)) == Some(who)
    ensures forall k: nat :: i <= k < j ==> ActorOf(b.act(k)) != Some(who)
  {
    if !ActsFrom(b, who, i) {
      forall k: nat | i <= k
        ensures ActorEnabled(c, b.st(k), who)
      {
        AnnouncedUntil(c, b, who, i, k);
        var a := WillingIsEnabled(c, b.st(k), who);
      }
    }
    var m: nat :| i <= m && ActorOf(b.act(m)) == Some(who);
    j := i;
    while ActorOf(b.act(j)) != Some(who)
      invariant i <= j <= m
      invariant forall k: nat :: i <= k < j ==> ActorOf(b.act(k)) != Some(who)
      decreases m - j
    {
      j := j + 1;
    }
  }

  /** Whatever creators, joiners and spurious wake-ups do, every fair behaviour frees the
      pool once the shutdown is announced. */
  lemma {:induction false} AnnouncedFrees(c: Config, b: Behavior, i: nat) returns (j: nat)
    requires IsBehavior(c, b) && Fair(c, b) && Announced(c, b.st(i))
    ensures i <= j && b.st(j).closer == Freed
    decreases Toll(c, b.st(i))
  {
    if b.st(i).closer == Freed {
      return i;
    }
    var who := SomeoneLeft(c, b.st(i));
    var k := FirstAct(c, b, who, i);
    AnnouncedUntil(c, b, who, i, k);
    AnnouncedAt(c, b, k, who);
    j := AnnouncedFrees(c, b, k + 1);
  }

  lemma {:induction false} FreedStays(c: Config, b: Behavior, i: nat, j: nat)
    requires IsBehavior(c, b) && b.st(i).closer == Freed && i <= j
    ensures b.st(j).closer == Freed
    decreases j - i
  {
    if i < j {
      FreedStays(c, b, i, j - 1);
      assert StepAt(c, b, j - 1);
    }
  }

  /** With something queued, the call can go to sleep and nobody be left to wake it. */
  lemma SleepsForGood(c: Config, s: State) returns (run: seq<Action>)
    requires Inv(c, s) && s.closer == NotCalled && s.queue != []
    ensures run != [] && run[0] == ShutdownCall && CanRun(c, s, run)
    ensures NobodyMoves(c, After(c, s, run)) && After(c, s, run).closer == FlushAsleep
  {
    var out: seq<Action> := [];
    var s1 := DoFlush(s.(phase := FLUSH));
    if c.workers > 0 {
      CallIsLeaving(c, s);
      out := WorkersRunOut(c, s1);
    }
    CanRunCons(c, s, ShutdownCall, out);
    run := [ShutdownCall] + out;
    GoneIsStill(c, After(c, s, run));
  }

  lemma SleepingIsNotFreed(c: Config, b: Behavior, n: nat)
    requires IsBehavior(c, b) && forall i: nat :: i >= n ==> b.st(i).closer == FlushAsleep
    ensures !EventuallyFreed(b)
  {
    if j: nat :| b.st(j).closer == Freed {
      FreedStays(c, b, j, if j < n then n else j);
    }
  }

  /** pool_shutdown returns on every fair behaviour if and only if the queue is empty when
      it is called, whatever creators are up to and whatever wakes up spuriously. */
  lemma ShutdownReturnsExactly(c: Config, s: State)
    requires Reachable(c, s) && s.closer == NotCalled
    ensures (forall b :: StartsShutdown(c, b, s) ==> EventuallyFreed(b)) <==> s.queue == []
  {
    ReachableInv(c, s);
    if s.queue == [] {
      forall b | StartsShutdown(c, b, s)
        ensures EventuallyFreed(b)
      {
        assert StepAt(c, b, 0);
        InvStep(c, s, ShutdownCall);
        var j := AnnouncedFrees(c, b, 1);
      }
    } else {
      var run := SleepsForGood(c, s);
      var b := RunForever(c, s, run);
      SleepingIsNotFreed(c, b, |run|);
      assert StartsShutdown(c, b, s);
    }
  }

  // ---- When the joins return ----

  /** Every joiner has returned or sleeps on a task that nobody will signal any more. */
  ghost predicate JoinsRest(s: State) {
    forall j :: j in s.joiners ==> s.joiners[j].Returned? || Stranded(s, j)
  }

  predicate LeavesJoins(a: Action) {
    !a.JoinCall? && !a.SpuriousJoiner?
  }

  lemma RestStep(c: Config, s: State, a: Action)
    requires Inv(c, s) && JoinsRest(s) && Enabled(c, s, a) && LeavesJoins(a)
    ensures Apply(c, s, a).joiners == s.joiners && JoinsRest(Apply(c, s, a))
  {
    RestingJoiners(c, s, a);
    forall j | j in s.joiners && !s.joiners[j].Returned?
      ensures Stranded(Apply(c, s, a), j)
    {
      StaysStranded(c, s, j, a);
    }
  }

  lemma RestingJoiners(c: Config, s: State, a: Action)
    requires JoinsRest(s) && Enabled(c, s, a) && LeavesJoins(a)
    ensures Apply(c, s, a).joiners == s.joiners
  {
  }

  lemma {:induction false} RunRests(c: Config, s: State, run: seq<Action>)
    requires Inv(c, s) && JoinsRest(s) && CanRun(c, s, run) && forall a :: a in run ==> LeavesJoins(a)
    ensures After(c, s, run).joiners == s.joiners && JoinsRest(After(c, s, run))
    decreases |run|
  {
    if run != [] {
      InvStep(c, s, run[0]);
      RestStep(c, s, run[0]);
      RunRests(c, Apply(c, s, run[0]), run[1..]);
    }
  }

  lemma RestingIsFair(c: Config, b: Behavior, n: nat)
    requires forall i: nat :: i >= n ==> forall j :: j in b.st(i).joiners ==>
      b.st(i).joiners[j].Waiting? || b.st(i).joiners[j].Returned?
    ensures JoinersFair(c, b)
  {
    forall j: JoinerId, i: nat
      ensures !JoinerEnabledFrom(c, b, j, i)
    {
      var k := if i < n then n else i;
      assert !JoinerEnabled(c, b.st(k), j);
    }
  }

  /** A fair behaviour from s that begins with the shutdown and leaves j waiting. */
  ghost predicate LosesJoin(c: Config, s: State, b: Behavior, j: JoinerId) {
    && StartsShutdown(c, b, s) && JoinersFair(c, b)
    && exists i: nat :: j in b.st(i).joiners && !EventuallyReturned(b, j, i)
  }

  /** A run that ends for good with joiner j waiting is such a behaviour. */
  lemma WaitsForGood(c: Config, s: State, run: seq<Action>, j: JoinerId)
    requires run != [] && run[0] == ShutdownCall && CanRun(c, s, run) && NobodyMoves(c, After(c, s, run))
    requires forall i :: i in After(c, s, run).joiners ==>
      After(c, s, run).joiners[i].Waiting? || After(c, s, run).joiners[i].Returned?
    requires j in After(c, s, run).joiners && After(c, s, run).joiners[j].Waiting?
    ensures exists b :: LosesJoin(c, s, b, j)
  {
    var b := RunForever(c, s, run);
    RestingIsFair(c, b, |run|);
    var n := |run|;
    assert b.st(n) == After(c, s, run);
    assert j in b.st(n).joiners && !EventuallyReturned(b, j, n);
    assert LosesJoin(c, s, b, j);
  }

  /** No such behaviour begins in a state in which no creator is pending, and in which
      there is a worker unless nothing is queued. */
  ghost predicate ServedJoinsReturn(c: Config) {
    forall s, b, j :: Reachable(c, s) && s.closer == NotCalled && Served(c, s) ==> !LosesJoin(c, s, b, j)
  }

  lemma ServedJoinReturns(c: Config, b: Behavior, j: JoinerId, i: nat)
    requires ShutdownRun(c, b) && JoinersFair(c, b) && j in b.st(i).joiners
    requires c.joins == map[] || c.workers == 0 || OneJoinerEach(c)
    ensures EventuallyReturned(b, j, i)
  {
    ShutdownIsLively(c, b);
    StepOf(c, b, i);
    assert j in c.joins;
    if c.workers == 0 {
      var k := EveryTaskFinishes(c, b, c.joins[j], i);
      StepOf(c, b, k);
    } else {
      var k := EveryJoinReturns(c, b, j, i);
    }
  }

  /** Two joiners of one task, of which one is stranded and the other has returned. */
  lemma ReachRest(c: Config, j: JoinerId, k: JoinerId) returns (s: State)
    requires c.workers > 0 && j in c.joins && k in c.joins && j != k && c.joins[j] == c.joins[k]
    ensures Reachable(c, s) && s.closer == NotCalled && Served(c, s) && s.queue == []
    ensures JoinsRest(s) && Stranded(s, k)
  {
    var stranded := ReachStranded(c, j, k);
    var asleep := AllToSleep(c, stranded, 0);
    s := LastReturns(c, asleep, j);
    assert Stranded(s, k);
  }

  /** Once all workers have left, the closing thread can free the pool. */
  lemma JoinAndFree(c: Config, s: State) returns (run: seq<Action>)
    requires AllExited(s) && s.closer == Joining(0)
    ensures CanRun(c, s, run) && After(c, s, run) == s.(closer := Freed) && forall a :: a in run ==> LeavesJoins(a)
  {
    var joins := JoinAll(c, s);
    var free: seq<Action> := [FreePool];
    CanRunCons(c, s.(closer := Joining(|s.workers|)), FreePool, []);
    assert [FreePool] + [] == free;
    RunsCompose(c, s, joins, free);
    run := joins + free;
  }

  lemma LeaveJoinAndFree(c: Config, s: State) returns (run: seq<Action>)
    requires Leaving(c, s) && s.closer == Joining(0)
    ensures CanRun(c, s, run) && NobodyMoves(c, After(c, s, run)) && forall a :: a in run ==> LeavesJoins(a)
  {
    var out := WorkersRunOut(c, s);
    var free := JoinAndFree(c, After(c, s, out));
    RunsCompose(c, s, out, free);
    run := out + free;
    GoneIsStill(c, After(c, s, run));
  }

  /** An idle pool can be shut down and freed without anybody's help. */
  lemma FreeWhileStranded(c: Config, s: State) returns (run: seq<Action>)
    requires Inv(c, s) && s.closer == NotCalled && s.queue == []
    ensures run != [] && run[0] == ShutdownCall && CanRun(c, s, run) && forall a :: a in run ==> LeavesJoins(a)
    ensures NobodyMoves(c, After(c, s, run))
  {
    CallIsLeaving(c, s);
    var rest := LeaveJoinAndFree(c, DoFlush(s.(phase := FLUSH)));
    CanRunCons(c, s, ShutdownCall, rest);
    run := [ShutdownCall] + rest;
  }

  lemma SharedJoinIsLost(c: Config, j: JoinerId, k: JoinerId)
    requires c.workers > 0 && j in c.joins && k in c.joins && j != k && c.joins[j] == c.joins[k]
    ensures !ServedJoinsReturn(c)
  {
    var s := ReachRest(c, j, k);
    ReachableInv(c, s);
    var run := FreeWhileStranded(c, s);
    RunRests(c, s, run);
    WaitsForGood(c, s, run, k);
  }

  /** When no creator is pending at the call, all joins return on every fair behaviour
      that begins with it if and only if no two threads join the same task (or there is
      nobody to join, or no worker and so no task to join). */
  lemma ServedJoinsReturnExactly(c: Config)
    ensures ServedJoinsReturn(c) <==> c.joins == map[] || c.workers == 0 || OneJoinerEach(c)
  {
    if c.joins == map[] || c.workers == 0 || OneJoinerEach(c) {
      forall s, b, j | Reachable(c, s) && s.closer == NotCalled && Served(c, s)
        ensures !LosesJoin(c, s, b, j)
      {
        if StartsShutdown(c, b, s) && JoinersFair(c, b) {
          forall i: nat | j in b.st(i).joiners
            ensures EventuallyReturned(b, j, i)
          {
            ServedJoinReturns(c, b, j, i);
          }
        }
      }
    } else {
      var j, k :| j in c.joins && k in c.joins && j != k && c.joins[j] == c.joins[k];
      SharedJoinIsLost(c, j, k);
    }
  }

  // ---- With pending creators no join is safe ----

  ghost predicate JoinsReturnAtShutdown(c: Config) {
    forall s, b, j :: Reachable(c, s) && s.closer == NotCalled ==> !LosesJoin(c, s, b, j)
  }

  /** Nobody joins yet, and t is the task of a pending creator. */
  ghost predicate Awaits(s: State, t: TaskId) {
    && s.joiners == map[] && t in s.pending && t in s.tasks
    && !s.tasks[t].finished && !s.tasks[t].independent
  }

  lemma AwaitsStep(c: Config, s: State, a: Action, t: TaskId)
    requires Inv(c, s) && Awaits(s, t) && Enabled(c, s, a) && WorkerAction(a)
    ensures Awaits(Apply(c, s, a), t)
  {
    if a.Execute? || a.Reclaim? {
      assert Busy(s.workers[a.w]);
    }
  }

  lemma {:induction false} AwaitsAfter(c: Config, s: State, run: seq<Action>, t: TaskId)
    requires Inv(c, s) && Awaits(s, t) && CanRun(c, s, run) && forall a :: a in run ==> WorkerAction(a)
    ensures Awaits(After(c, s, run), t)
    decreases |run|
  {
    if run != [] {
      AwaitsStep(c, s, run[0], t);
      InvStep(c, s, run[0]);
      AwaitsAfter(c, Apply(c, s, run[0]), run[1..], t);
    }
  }

  lemma FromLocking(c: Config, s: State, j: JoinerId, t: TaskId) returns (run: seq<Action>)
    requires s.joiners == map[j := Locking(t)] && t in s.tasks && !s.tasks[t].finished && AllExited(s)
    ensures CanRun(c, s, run) && After(c, s, run) == s.(joiners := map[j := Waiting(t)])
  {
    assert s.joiners[j := Waiting(t)] == map[j := Waiting(t)];
    CanRunCons(c, s, JoinLock(j), []);
    run := [JoinLock(j)] + [];
  }

  lemma FromMissed(c: Config, s: State, j: JoinerId, t: TaskId) returns (run: seq<Action>)
    requires s.joiners == map[j := Missed(t)] && t in s.tasks && !s.tasks[t].finished && AllExited(s)
    requires s.phase == FLUSH
    ensures CanRun(c, s, run) && After(c, s, run) == s.(joiners := map[j := Waiting(t)])
  {
    var rest := FromLocking(c, s.(joiners := map[j := Locking(t)]), j, t);
    assert s.joiners[j := Locking(t)] == map[j := Locking(t)];
    CanRunCons(c, s, JoinState(j), rest);
    run := [JoinState(j)] + rest;
  }

  lemma FromCalled(c: Config, s: State, j: JoinerId, t: TaskId) returns (run: seq<Action>)
    requires s.joiners == map[j := Called(t)] && t in s.tasks && !s.tasks[t].finished && AllExited(s)
    requires s.phase == FLUSH
    ensures CanRun(c, s, run) && After(c, s, run) == s.(joiners := map[j := Waiting(t)])
  {
    var rest := FromMissed(c, s.(joiners := map[j := Missed(t)]), j, t);
    assert s.joiners[j := Missed(t)] == map[j := Missed(t)];
    CanRunCons(c, s, JoinRead(j), rest);
    run := [JoinRead(j)] + rest;
  }

  /** A join of an unfinished task of a pool that all workers have left during a flush. */
  lemma LateJoin(c: Config, s: State, j: JoinerId, t: TaskId) returns (run: seq<Action>)
    requires j in c.joins && c.joins[j] == t && s.joiners == map[] && t in s.enqueued && t in s.tasks
    requires !s.tasks[t].finished && !s.tasks[t].independent && AllExited(s) && s.phase == FLUSH
    ensures CanRun(c, s, run) && After(c, s, run) == s.(joiners := map[j := Waiting(t)])
  {
    var rest := FromCalled(c, s.(joiners := map[j := Called(t)]), j, t);
    assert s.joiners[j := Called(t)] == map[j := Called(t)];
    CanRunCons(c, s, JoinCall(j), rest);
    run := [JoinCall(j)] + rest;
  }

  /** The creator enqueues behind the last worker, and its task is joined then. */
  lemma LateEnqueueAndJoin(c: Config, s: State, j: JoinerId) returns (run: seq<Action>)
    requires j in c.joins && History(s) && AllExited(s) && s.closer == FlushAsleep && s.phase == FLUSH
    requires Awaits(s, c.joins[j])
    ensures CanRun(c, s, run) && After(c, s, run).closer == FlushAsleep && AllExited(After(c, s, run))
    ensures After(c, s, run).joiners == map[j := Waiting(c.joins[j])]
  {
    var t := c.joins[j];
    var s1 := DoEnqueue(s, t, WakeCloser);
    var s2 := DoFlush(s1);
    assert t == s2.enqueued[|s.enqueued|];
    var late := LateJoin(c, s2, j, t);
    CanRunCons(c, s1, ShutdownRecheck, late);
    CanRunCons(c, s, Enqueue(t, WakeCloser), [ShutdownRecheck] + late);
    run := [Enqueue(t, WakeCloser)] + ([ShutdownRecheck] + late);
  }

  lemma FlushLosesJoin(c: Config, s: State, j: JoinerId) returns (run: seq<Action>)
    requires Leaving(c, s) && s.closer == FlushAsleep && j in c.joins && Awaits(s, c.joins[j])
    ensures CanRun(c, s, run) && NobodyMoves(c, After(c, s, run))
    ensures After(c, s, run).joiners == map[j := Waiting(c.joins[j])]
  {
    var out := WorkersRunOut(c, s);
    AwaitsAfter(c, s, out, c.joins[j]);
    var late := LateEnqueueAndJoin(c, After(c, s, out), j);
    RunsCompose(c, s, out, late);
    run := out + late;
    GoneIsStill(c, After(c, s, run));
  }

  /** One task queued, and the creator of the joined one pending. */
  lemma ReachAwaits(c: Config, j: JoinerId) returns (s: State)
    requires j in c.joins
    ensures Reachable(c, s) && s.closer == NotCalled && s.phase == ACTIVE && s.queue != []
    ensures Awaits(s, c.joins[j])
  {
    var t := c.joins[j];
    var k := ReachQueued(c, t + 1);
    var queued := Queued(c, t + 1, k);
    s := Step(c, queued, CreateCheck(t, k.f, 0, false),
              queued.(tasks := queued.tasks[t := Task(k.f, 0, false, false, 0, false)], pending := {t}));
  }

  lemma PendingJoinIsLost(c: Config, j: JoinerId)
    requires c.workers > 0 && j in c.joins
    ensures !JoinsReturnAtShutdown(c)
  {
    var s := ReachAwaits(c, j);
    ReachableInv(c, s);
    CallIsLeaving(c, s);
    var rest := FlushLosesJoin(c, DoFlush(s.(phase := FLUSH)), j);
    CanRunCons(c, s, ShutdownCall, rest);
    WaitsForGood(c, s, [ShutdownCall] + rest, j);
  }

  lemma UnservedJoinIsLost(c: Config, j: JoinerId)
    requires c.workers == 0 && j in c.joins
    ensures !JoinsReturnAtShutdown(c)
  {
    var k := ReachQueued(c, c.joins[j]);
    var s := JoinSleeps(c, Queued(c, c.joins[j], k), j);
    CanRunCons(c, s, ShutdownCall, []);
    var run: seq<Action> := [ShutdownCall] + [];
    GoneIsStill(c, After(c, s, run));
    WaitsForGood(c, s, run, j);
  }

  /** Without that proviso, joins are sure to return at a shutdown only if there are none. */
  lemma JoinsReturnAtShutdownExactly(c: Config)
    ensures JoinsReturnAtShutdown(c) <==> c.joins == map[]
  {
    if c.joins == map[] {
      forall s, b, j | Reachable(c, s) && s.closer == NotCalled
        ensures !LosesJoin(c, s, b, j)
      {
        if StartsShutdown(c, b, s) {
          NobodyJoins(c, b);
        }
      }
    } else {
      var j :| j in c.joins;
      if c.workers > 0 {
        PendingJoinIsLost(c, j);
      } else {
        UnservedJoinIsLost(c, j);
      }
    }
  }

  lemma NobodyJoins(c: Config, b: Behavior)
    requires c.joins == map[] && IsBehavior(c, b) && Reachable(c, b.st(0))
    ensures forall i: nat :: b.st(i).joiners == map[]
  {
    forall i: nat
      ensures b.st(i).joiners == map[]
    {
      BehaviorReachable(c, b, i);
      ReachableJoinInv(c, b.st(i));
    }
  }
}
