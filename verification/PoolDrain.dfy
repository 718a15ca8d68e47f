/** What pool_shutdown gets done, whether or not it returns (pool.c 129-183). */
module PoolDrain {
  import opened Wrappers
  import opened PoolProtocol
  import opened PoolSafety
  import opened PoolJoin
  import opened PoolShutdown
  import opened PoolProgress

  /** The shutdown has begun with no creator past its state check, and the workers that
      are awake are still enough for the queue. */
  ghost predicate Flushing(c: Config, s: State) {
    && Draining(c, s)
    && (Exited in s.workers ==> s.queue == [])
    && (Asleep in s.workers ==> |s.queue| <= Sum(s.workers, IsReady))
  }

  lemma ExitsOnlyWhenEmpty(c: Config, s: State, a: Action)
    requires Draining(c, s) && Enabled(c, s, a) && (Exited in s.workers ==> s.queue == [])
    ensures Exited in Apply(c, s, a).workers ==> Apply(c, s, a).queue == []
  {
  }

  lemma StaysEnough(c: Config, s: State, a: Action)
    requires Phases(c, s) && s.pending == {} && s.phase != ACTIVE && Enabled(c, s, a)
    requires Asleep in s.workers ==> |s.queue| <= Sum(s.workers, IsReady)
    ensures Asleep in Apply(c, s, a).workers ==> |Apply(c, s, a).queue| <= Sum(Apply(c, s, a).workers, IsReady)
  {
    var s' := Apply(c, s, a);
    if !a.ShutdownRecheck? {
      MovedWorker(c, s, a);
      if Moved(a) != None {
        SumUpdate(s.workers, Moved(a).value, s'.workers[Moved(a).value], IsReady);
      }
    }
  }

  lemma KeepsFlushing(c: Config, s: State, a: Action)
    requires Flushing(c, s) && Enabled(c, s, a)
    ensures Flushing(c, Apply(c, s, a))
  {
    DrainingStep(c, s, a);
    ExitsOnlyWhenEmpty(c, s, a);
    StaysEnough(c, s, a);
  }

  lemma ShutdownFlushes(c: Config, s: State)
    requires Inv(c, s) && s.pending == {} && s.closer == NotCalled
    ensures Flushing(c, Apply(c, s, ShutdownCall))
  {
    InvStep(c, s, ShutdownCall);
  }

  lemma FlushingHasAwake(c: Config, s: State)
    requires Flushing(c, s) && c.workers > 0 && s.queue != []
    ensures SomeoneAwake(s)
  {
    if Asleep in s.workers {
      var w := ReadyWorker(s.workers);
      assert Awake(s, w);
    } else {
      assert s.workers[0] in s.workers;
      assert Awake(s, 0);
    }
  }

  /** A fair behaviour from s that begins with the call of pool_shutdown. */
  ghost predicate StartsShutdown(c: Config, b: Behavior, s: State) {
    IsBehavior(c, b) && Fair(c, b) && b.st(0) == s && b.act(0) == ShutdownCall
  }

  /** No creator is between its state check and its enqueue, and there is a worker unless
      nothing is queued. */
  ghost predicate Served(c: Config, s: State) {
    s.pending == {} && (c.workers > 0 || s.queue == [])
  }

  ghost predicate ShutdownRun(c: Config, b: Behavior) {
    StartsShutdown(c, b, b.st(0)) && Reachable(c, b.st(0)) && Served(c, b.st(0))
  }

  lemma {:induction false} FlushingFrom(c: Config, b: Behavior, k: nat)
    requires ShutdownRun(c, b) && k > 0
    ensures Flushing(c, b.st(k)) && b.st(k).enqueued == b.st(1).enqueued
  {
    if k == 1 {
      assert StepAt(c, b, 0);
      ReachableInv(c, b.st(0));
      ShutdownFlushes(c, b.st(0));
    } else {
      FlushingFrom(c, b, k - 1);
      assert StepAt(c, b, k - 1);
      KeepsFlushing(c, b.st(k - 1), b.act(k - 1));
      NothingEnqueued(c, b.st(k - 1), b.act(k - 1));
    }
  }

  lemma NothingEnqueued(c: Config, s: State, a: Action)
    requires s.pending == {} && Enabled(c, s, a)
    ensures Apply(c, s, a).enqueued == s.enqueued
  {
  }

  lemma EmptyStaysEmpty(c: Config, b: Behavior, k: nat)
    requires ShutdownRun(c, b) && b.st(0).queue == []
    ensures b.st(k).queue == []
  {
    if k > 0 {
      assert StepAt(c, b, 0);
      FlushingFrom(c, b, 1);
      BehaviorDrains(c, b, 1, k);
    }
  }

  lemma ShutdownIsLively(c: Config, b: Behavior)
    requires ShutdownRun(c, b)
    ensures Lively(c, b)
  {
    forall k: nat | b.st(k).queue != []
      ensures SomeoneAwake(b.st(k))
    {
      if b.st(0).queue == [] {
        EmptyStaysEmpty(c, b, k);
      } else if k == 0 {
        assert StepAt(c, b, 0);
        ReachableInv(c, b.st(0));
        ActiveHasAwake(c, b.st(0));
      } else {
        FlushingFrom(c, b, k);
        FlushingHasAwake(c, b.st(k));
      }
    }
  }

  lemma {:induction false} SettledFrom(c: Config, b: Behavior, t: TaskId, i: nat, j: nat)
    requires Lively(c, b) && Settled(b.st(i), t) && i <= j
    ensures Settled(b.st(j), t)
    decreases j - i
  {
    if i < j {
      SettledFrom(c, b, t, i, j - 1);
      StepOf(c, b, j - 1);
      SettledStays(c, b.st(j - 1), b.act(j - 1), t);
    }
  }

  /** The first n tasks are finished together, from some moment on. */
  lemma {:induction false} FirstSettle(c: Config, b: Behavior, n: nat) returns (j: nat)
    requires Lively(c, b) && n <= |b.st(1).enqueued|
    ensures 1 <= j && forall m :: 0 <= m < n ==> Settled(b.st(j), b.st(1).enqueued[m])
  {
    if n == 0 {
      return 1;
    }
    var ts := b.st(1).enqueued;
    var i := FirstSettle(c, b, n - 1);
    var k := EventuallySettled(c, b, ts[n - 1], 1);
    j := if i < k then k else i;
    SettledFrom(c, b, ts[n - 1], k, j);
    forall m | 0 <= m < n - 1
      ensures Settled(b.st(j), ts[m])
    {
      SettledFrom(c, b, ts[m], i, j);
    }
  }

  /** Every fair shutdown finishes every task that was ever created, from some moment on. */
  lemma ShutdownFinishesAll(c: Config, b: Behavior) returns (j: nat)
    requires ShutdownRun(c, b)
    ensures forall k: nat :: j <= k ==> AllFinished(b.st(k)) && b.st(k).queue == []
  {
    ShutdownIsLively(c, b);
    j := FirstSettle(c, b, |b.st(1).enqueued|);
    forall k: nat | j <= k
      ensures AllFinished(b.st(k)) && b.st(k).queue == []
    {
      AllSettledAt(c, b, j, k);
    }
  }

  lemma AllSettledAt(c: Config, b: Behavior, j: nat, k: nat)
    requires ShutdownRun(c, b) && Lively(c, b) && 1 <= j <= k
    requires forall m :: 0 <= m < |b.st(1).enqueued| ==> Settled(b.st(j), b.st(1).enqueued[m])
    ensures AllFinished(b.st(k)) && b.st(k).queue == []
  {
    var s := b.st(k);
    FlushingFrom(c, b, k);
    forall t | t in s.tasks
      ensures s.tasks[t].finished
    {
      assert t in s.enqueued;
      SettledFrom(c, b, t, j, k);
    }
    if s.queue != [] {
      HeadIsNew(s);
    }
  }

  /** When the queue is not empty at the call and no spurious wake-up helps, the closing
      thread hangs for ever with all the work done. */
  lemma HangsWithWorkDone(c: Config, b: Behavior) returns (j: nat)
    requires ShutdownRun(c, b) && b.st(0).queue != [] && forall k: nat :: b.act(k) != SpuriousCloser
    ensures forall k: nat :: j <= k ==>
      AllFinished(b.st(k)) && b.st(k).queue == [] && b.st(k).closer == FlushAsleep
  {
    var i := ShutdownFinishesAll(c, b);
    j := i + 1;
    assert StepAt(c, b, 0);
    FlushingFrom(c, b, 1);
    forall k: nat | j <= k
      ensures b.st(k).closer == FlushAsleep
    {
      CloserSleepsOn(c, b, 1, k);
    }
  }

  // ---- Finite runs that end for good ----

  ghost predicate NobodyMoves(c: Config, s: State) {
    forall who :: !ActorEnabled(c, s, who)
  }

  lemma GoneIsStill(c: Config, s: State)
    requires AllExited(s) && (s.closer == Freed || s.closer == FlushAsleep)
    ensures NobodyMoves(c, s)
  {
  }

  ghost function StateAt(c: Config, s: State, run: seq<Action>, i: nat): State
    decreases i
  {
    if i == 0 || run == [] || !Enabled(c, s, run[0]) then s
    else StateAt(c, Apply(c, s, run[0]), run[1..], i - 1)
  }

  ghost function ActAt(run: seq<Action>, i: nat): Action {
    if i < |run| then run[i] else Stutter
  }

  lemma {:induction false} RunStep(c: Config, s: State, run: seq<Action>, i: nat)
    requires CanRun(c, s, run)
    ensures Enabled(c, StateAt(c, s, run, i), ActAt(run, i))
    ensures StateAt(c, s, run, i + 1) == Apply(c, StateAt(c, s, run, i), ActAt(run, i))
    ensures i >= |run| ==> StateAt(c, s, run, i) == After(c, s, run)
    decreases |run|
  {
    if run != [] {
      var s1 := Apply(c, s, run[0]);
      if i == 0 {
        assert StateAt(c, s1, run[1..], 0) == s1;
      } else {
        RunStep(c, s1, run[1..], i - 1);
      }
    }
  }

  ghost function BehaviorOf(c: Config, s: State, run: seq<Action>): Behavior {
    Behavior((i: nat) => StateAt(c, s, run, i), (i: nat) => ActAt(run, i))
  }

  lemma RunIsBehavior(c: Config, s: State, run: seq<Action>)
    requires CanRun(c, s, run)
    ensures IsBehavior(c, BehaviorOf(c, s, run))
  {
    var b := BehaviorOf(c, s, run);
    forall i: nat
      ensures StepAt(c, b, i)
    {
      RunStep(c, s, run, i);
    }
  }

  lemma RunSettles(c: Config, s: State, run: seq<Action>)
    requires CanRun(c, s, run)
    ensures forall i: nat :: i >= |run| ==> BehaviorOf(c, s, run).st(i) == After(c, s, run)
  {
    forall i: nat | i >= |run|
      ensures BehaviorOf(c, s, run).st(i) == After(c, s, run)
    {
      RunStep(c, s, run, i);
    }
  }

  lemma StillIsFair(c: Config, b: Behavior, n: nat)
    requires forall i: nat :: i >= n ==> NobodyMoves(c, b.st(i))
    ensures Fair(c, b)
  {
    forall who, i: nat
      ensures !EnabledFrom(c, b, who, i)
    {
      var k := if i < n then n else i;
      assert NobodyMoves(c, b.st(k));
      assert !ActorEnabled(c, b.st(k), who);
    }
  }

  /** A run that leaves nobody with a step to take is the beginning of a fair behaviour
      that stays where the run ends. */
  lemma RunForever(c: Config, s: State, run: seq<Action>) returns (b: Behavior)
    requires CanRun(c, s, run) && NobodyMoves(c, After(c, s, run))
    ensures IsBehavior(c, b) && Fair(c, b) && b.st(0) == s
    ensures forall i: nat :: b.act(i) == ActAt(run, i)
    ensures forall i: nat :: i >= |run| ==> b.st(i) == After(c, s, run)
  {
    b := BehaviorOf(c, s, run);
    RunIsBehavior(c, s, run);
    RunSettles(c, s, run);
    StillIsFair(c, b, |run|);
  }

  // ---- Exactly when a shutdown finishes what was enqueued ----

  ghost predicate AllGetFinished(b: Behavior) {
    forall t, i: nat :: t in b.st(i).enqueued ==> EventuallyFinished(b, t, i)
  }

  /** A run that begins with the shutdown and ends for good with an enqueued task
      unfinished. */
  ghost predicate LosesTask(c: Config, s: State, run: seq<Action>) {
    && run != [] && run[0] == ShutdownCall && CanRun(c, s, run)
    && NobodyMoves(c, After(c, s, run)) && !EnqueuedFinished(After(c, s, run))
  }

  lemma LostForever(c: Config, s: State, run: seq<Action>)
    requires LosesTask(c, s, run)
    ensures exists b :: StartsShutdown(c, b, s) && !AllGetFinished(b)
  {
    var end := After(c, s, run);
    var b := RunForever(c, s, run);
    var t :| t in end.enqueued && !(t in end.tasks && end.tasks[t].finished);
    var n := |run|;
    assert b.st(n) == end;
    assert !EventuallyFinished(b, t, n);
    assert StartsShutdown(c, b, s);
  }

  /** With a worker, or an empty queue, everybody leaves after the call. */
  lemma CallIsLeaving(c: Config, s: State)
    requires Inv(c, s) && s.closer == NotCalled && (c.workers > 0 || s.queue == [])
    ensures Leaving(c, Apply(c, s, ShutdownCall))
  {
    InvStep(c, s, ShutdownCall);
  }

  /** In FLUSH: the creator's signal goes to the closing thread, which finds the queue
      non-empty and sleeps again, with no worker left. */
  lemma FlushTooLate(c: Config, s: State, t: TaskId)
    requires History(s) && FinishedLeft(s) && AllExited(s) && s.closer == FlushAsleep && t in s.pending
    ensures var run := [Enqueue(t, WakeCloser), ShutdownRecheck];
      CanRun(c, s, run) && NobodyMoves(c, After(c, s, run)) && !EnqueuedFinished(After(c, s, run))
  {
    var s1 := DoEnqueue(s, t, WakeCloser);
    assert t == s1.enqueued[|s.enqueued|] && !s.tasks[t].finished;
    var s2 := DoFlush(s1);
    CanRunCons(c, s1, ShutdownRecheck, []);
    CanRunCons(c, s, Enqueue(t, WakeCloser), [ShutdownRecheck]);
    assert [ShutdownRecheck] + [] == [ShutdownRecheck];
    assert [Enqueue(t, WakeCloser)] + [ShutdownRecheck] == [Enqueue(t, WakeCloser), ShutdownRecheck];
    GoneIsStill(c, s2);
  }

  /** With a pending creator, the workers can leave before it enqueues. */
  lemma FlushLoses(c: Config, s: State) returns (run: seq<Action>)
    requires Leaving(c, s) && s.closer == FlushAsleep && s.pending != {}
    ensures CanRun(c, s, run) && NobodyMoves(c, After(c, s, run)) && !EnqueuedFinished(After(c, s, run))
  {
    var out := WorkersRunOut(c, s);
    var t :| t in s.pending;
    FlushTooLate(c, After(c, s, out), t);
    run := out + [Enqueue(t, WakeCloser), ShutdownRecheck];
    RunsCompose(c, s, out, [Enqueue(t, WakeCloser), ShutdownRecheck]);
  }

  lemma CloseLoses(c: Config, s: State) returns (run: seq<Action>)
    requires Inv(c, s) && s.phase == SHUTDOWN && s.queue == [] && s.pending != {} && s.closer != Freed
    ensures CanRun(c, s, run) && NobodyMoves(c, After(c, s, run)) && !EnqueuedFinished(After(c, s, run))
  {
    run := EnqueuesTooLate(c, s);
    RunKeepsInv(c, s, run);
    GoneIsStill(c, After(c, s, run));
  }

  lemma PendingIsLost(c: Config, s: State) returns (run: seq<Action>)
    requires Inv(c, s) && s.closer == NotCalled && s.pending != {} && (c.workers > 0 || s.queue == [])
    ensures LosesTask(c, s, run)
  {
    var s1 := DoFlush(s.(phase := FLUSH));
    CallIsLeaving(c, s);
    var rest: seq<Action>;
    if s.queue == [] {
      rest := CloseLoses(c, s1);
    } else {
      rest := FlushLoses(c, s1);
    }
    CanRunCons(c, s, ShutdownCall, rest);
    run := [ShutdownCall] + rest;
  }

  lemma UnservedIsLost(c: Config, s: State) returns (run: seq<Action>)
    requires Inv(c, s) && s.closer == NotCalled && c.workers == 0 && s.queue != []
    ensures LosesTask(c, s, run)
  {
    run := [ShutdownCall];
    CanRunCons(c, s, ShutdownCall, []);
    assert [ShutdownCall] + [] == run;
    HeadIsNew(s);
    assert s.queue[0] == s.enqueued[|s.dequeued|];
    GoneIsStill(c, After(c, s, run));
  }

  /** Every task enqueued before or after the call of pool_shutdown is finished on every
      fair behaviour if and only if no creator is then between its state check and its
      enqueue, and there is a worker or nothing to do. */
  lemma ShutdownFinishesExactly(c: Config, s: State)
    requires Reachable(c, s) && s.closer == NotCalled
    ensures (forall b :: StartsShutdown(c, b, s) ==> AllGetFinished(b)) <==> Served(c, s)
  {
    ReachableInv(c, s);
    if Served(c, s) {
      forall b | StartsShutdown(c, b, s)
        ensures AllGetFinished(b)
      {
        ServedFinishes(c, b);
      }
    } else {
      var run: seq<Action>;
      if c.workers == 0 && s.queue != [] {
        run := UnservedIsLost(c, s);
      } else {
        run := PendingIsLost(c, s);
      }
      LostForever(c, s, run);
    }
  }

  lemma ServedFinishes(c: Config, b: Behavior)
    requires ShutdownRun(c, b)
    ensures AllGetFinished(b)
  {
    ShutdownIsLively(c, b);
    forall t, i: nat | t in b.st(i).enqueued
      ensures EventuallyFinished(b, t, i)
    {
      var j := EveryTaskFinishes(c, b, t, i);
    }
  }

  // ---- The hang happens ----

  /** From every reachable state with something queued, no pending creator and a worker,
      a fair behaviour without spurious wake-ups of the closing thread begins with the
      shutdown, and hangs. */
  lemma HangHappens(c: Config, s: State) returns (b: Behavior, j: nat)
    requires Reachable(c, s) && s.closer == NotCalled && s.pending == {} && s.queue != [] && c.workers > 0
    ensures ShutdownRun(c, b) && b.st(0) == s && forall k: nat :: b.act(k) != SpuriousCloser
    ensures forall k: nat :: j <= k ==> AllFinished(b.st(k)) && b.st(k).closer == FlushAsleep
  {
    ReachableInv(c, s);
    CallIsLeaving(c, s);
    var s1 := Apply(c, s, ShutdownCall);
    var out := WorkersRunOut(c, s1);
    CanRunCons(c, s, ShutdownCall, out);
    var run := [ShutdownCall] + out;
    GoneIsStill(c, After(c, s, run));
    b := RunForever(c, s, run);
    forall k: nat
      ensures b.act(k) != SpuriousCloser
    {
      assert 0 < k < |run| ==> run[k] in out;
    }
    j := HangsWithWorkDone(c, b);
  }

  /** So it can happen in every pool with a worker. */
  lemma EveryPoolCanHang(c: Config) returns (b: Behavior, j: nat)
    requires c.workers > 0
    ensures ShutdownRun(c, b) && forall k: nat :: j <= k ==> AllFinished(b.st(k)) && b.st(k).closer == FlushAsleep
  {
    var k := ReachQueued(c, 0);
    b, j := HangHappens(c, Queued(c, 0, k));
  }
}
