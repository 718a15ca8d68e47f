/** The join protocol of pool.c (110-121 against 142-150). */
module PoolJoin {
  import opened Wrappers
  import opened PoolProtocol
  import opened PoolSafety

  /** A worker has set isfinished on t and has yet to signal its condition. */
  ghost predicate SignalDue(s: State, t: TaskId) {
    exists w :: 0 <= w < |s.workers| && (s.workers[w] == Finished(t) || s.workers[w] == Reclaimed(t))
  }

  /** j sleeps on the condition of a finished task, and no worker will signal it. */
  ghost predicate Stranded(s: State, j: JoinerId) {
    && j in s.joiners && s.joiners[j].Waiting? && s.joiners[j].t in s.tasks
    && s.tasks[s.joiners[j].t].finished && !SignalDue(s, s.joiners[j].t)
  }

  ghost predicate Shares(c: Config, j: JoinerId) {
    exists k :: k != j && k in c.joins && j in c.joins && c.joins[k] == c.joins[j]
  }

  ghost predicate JoinersKnown(c: Config, s: State) {
    forall j :: j in s.joiners ==>
      && j in c.joins && s.joiners[j].t == c.joins[j]
      && c.joins[j] in s.enqueued && c.joins[j] in s.tasks && !s.tasks[c.joins[j]].independent
  }

  ghost predicate ReturnsSound(s: State) {
    forall j :: j in s.joiners && s.joiners[j].Returned? ==>
      || (s.joiners[j].code == 0 && s.joiners[j].t in s.tasks && s.tasks[s.joiners[j].t].finished)
      || (s.joiners[j].code == -1 && s.phase == SHUTDOWN)
  }

  ghost predicate JoinInv(c: Config, s: State) {
    JoinersKnown(c, s) && ReturnsSound(s) && forall j :: Stranded(s, j) ==> Shares(c, j)
  }

  /** No step but a call of pool_join_task adds a joiner or changes what it joins. */
  ghost predicate SameJoins(s: State, s': State) {
    forall j :: j in s'.joiners ==> j in s.joiners && s'.joiners[j].t == s.joiners[j].t
  }

  ghost predicate TasksKept(s: State, s': State) {
    && (forall t :: t in s.enqueued ==> t in s'.enqueued)
    && (forall t :: t in s.tasks ==> t in s'.tasks && s'.tasks[t].independent == s.tasks[t].independent)
  }

  lemma KeepsJoins(c: Config, s: State, a: Action)
    requires Enabled(c, s, a) && !a.JoinCall?
    ensures SameJoins(s, Apply(c, s, a))
  {
  }

  lemma KeepsTasks(c: Config, s: State, a: Action)
    requires History(s) && Enabled(c, s, a)
    ensures TasksKept(s, Apply(c, s, a))
  {
  }

  lemma SameJoinsKeeps(c: Config, s: State, s': State)
    requires JoinersKnown(c, s) && SameJoins(s, s') && TasksKept(s, s')
    ensures JoinersKnown(c, s')
  {
  }

  lemma KeepsJoinersKnown(c: Config, s: State, a: Action)
    requires History(s) && JoinersKnown(c, s) && Enabled(c, s, a)
    ensures JoinersKnown(c, Apply(c, s, a))
  {
    if !a.JoinCall? {
      KeepsJoins(c, s, a);
      KeepsTasks(c, s, a);
      SameJoinsKeeps(c, s, Apply(c, s, a));
    }
  }

  lemma KeepsReturnsSound(c: Config, s: State, a: Action)
    requires Phases(c, s) && ReturnsSound(s) && Enabled(c, s, a)
    ensures ReturnsSound(Apply(c, s, a))
  {
  }

  lemma SignalStaysDue(c: Config, s: State, a: Action, t: TaskId)
    requires Enabled(c, s, a) && SignalDue(s, t) && !(a.Release? && s.workers[a.w] == Reclaimed(t))
    ensures SignalDue(Apply(c, s, a), t)
  {
    var w :| 0 <= w < |s.workers| && (s.workers[w] == Finished(t) || s.workers[w] == Reclaimed(t));
    assert Apply(c, s, a).workers[w] == Finished(t) || Apply(c, s, a).workers[w] == Reclaimed(t);
  }

  /** A step can strand j only by signalling another joiner of the same task. */
  lemma NewlyStranded(c: Config, s: State, a: Action, j: JoinerId)
    requires JoinersKnown(c, s) && Enabled(c, s, a) && !Stranded(s, j) && Stranded(Apply(c, s, a), j)
    ensures Shares(c, j)
  {
    var s' := Apply(c, s, a);
    var t := s'.joiners[j].t;
    if a.Execute? {
      assert s'.workers[a.w] == Finished(s.workers[a.w].t);
    }
    if a.Release? && s.workers[a.w] == Reclaimed(t) {
      assert s.joiners[a.joiner.value] == Waiting(t);
    } else if SignalDue(s, t) {
      SignalStaysDue(c, s, a, t);
    }
  }

  lemma KeepsJoinInv(c: Config, s: State, a: Action)
    requires Inv(c, s) && JoinInv(c, s) && Enabled(c, s, a)
    ensures JoinInv(c, Apply(c, s, a))
  {
    KeepsJoinersKnown(c, s, a);
    KeepsReturnsSound(c, s, a);
    forall j | Stranded(Apply(c, s, a), j)
      ensures Shares(c, j)
    {
      if !Stranded(s, j) {
        NewlyStranded(c, s, a, j);
      }
    }
  }

  lemma {:induction false} RunKeepsJoinInv(c: Config, s: State, run: seq<Action>)
    requires Inv(c, s) && JoinInv(c, s) && CanRun(c, s, run)
    ensures JoinInv(c, After(c, s, run))
    decreases |run|
  {
    if run != [] {
      InvStep(c, s, run[0]);
      KeepsJoinInv(c, s, run[0]);
      RunKeepsJoinInv(c, Apply(c, s, run[0]), run[1..]);
    }
  }

  lemma ReachableJoinInv(c: Config, s: State)
    requires Reachable(c, s)
    ensures Inv(c, s) && JoinInv(c, s)
  {
    var run :| CanRun(c, Start(c), run) && After(c, Start(c), run) == s;
    InvStart(c);
    RunKeepsInv(c, Start(c), run);
    RunKeepsJoinInv(c, Start(c), run);
  }

  /** pool_join_task returns 0 only once the task holds the result its creator asked for,
      and -1 only after the pool has announced its shutdown. */
  lemma JoinReturns(c: Config, s: State, j: JoinerId)
    requires Reachable(c, s) && j in s.joiners && s.joiners[j].Returned?
    ensures j in c.joins && s.joiners[j].t == c.joins[j]
    ensures s.joiners[j].code == 0 || s.joiners[j].code == -1
    ensures s.joiners[j].code == 0 ==> Delivered(c, s, c.joins[j])
    ensures s.joiners[j].code == -1 ==> s.phase == SHUTDOWN
  {
    ReachableJoinInv(c, s);
    if s.joiners[j].code == 0 {
      FinishedIsDelivered(c, s, c.joins[j]);
    }
  }

  // ---- When a signal can be missed ----

  ghost predicate NeverStrands(c: Config) {
    forall s, j :: Reachable(c, s) ==> !Stranded(s, j)
  }

  ghost predicate OneJoinerEach(c: Config) {
    forall j, k :: j in c.joins && k in c.joins && j != k ==> c.joins[j] != c.joins[k]
  }

  /** One active pool with the single task t queued and unclaimed. */
  ghost function Queued(c: Config, t: TaskId, k: Task): State {
    State(ACTIVE, [t], map[t := k], {}, Start(c).workers, NotCalled, map[], [t], [], [])
  }

  lemma ReachQueued(c: Config, t: TaskId) returns (k: Task)
    ensures Reachable(c, Queued(c, t, k)) && !k.finished && !k.independent
  {
    var id: int -> int := x => x;
    k := Task(id, 0, false, false, 0, false);
    assert CanRun(c, Start(c), []);
    var created := Step(c, Start(c), CreateCheck(t, id, 0, false), Start(c).(tasks := map[t := k], pending := {t}));
    var queued := Step(c, created, Enqueue(t, WakeNobody), Queued(c, t, k));
  }

  /** Worker 0 takes the only queued task and runs it. */
  lemma RunTask(c: Config, s: State, t: TaskId) returns (s': State)
    requires Reachable(c, s) && 0 < |s.workers| && s.queue == [t] && t in s.tasks
    requires forall w :: 0 <= w < |s.workers| ==> s.workers[w] == Ready
    ensures Reachable(c, s') && s'.workers == s.workers[0 := Finished(t)] && s'.joiners == s.joiners
    ensures t in s'.tasks && s'.tasks[t].finished && s'.tasks[t].independent == s.tasks[t].independent
    ensures s'.queue == [] && s'.phase == s.phase && s'.closer == s.closer && s'.pending == s.pending
  {
    var taken := Step(c, s, WorkerLock(0), DoWorkerLock(s, 0));
    var running := Step(c, taken, LockTask(0), taken.(workers := s.workers[0 := Running(t)]));
    s' := Step(c, running, Execute(0), DoExecute(running, 0, t));
  }

  /** Worker 0 signals joiner j and unlocks the task. */
  lemma WakeJoiner(c: Config, s: State, t: TaskId, j: JoinerId) returns (s': State)
    requires Reachable(c, s) && 0 < |s.workers| && s.workers[0] == Finished(t)
    requires t in s.tasks && s.tasks[t].finished
    requires j in s.joiners && s.joiners[j] == Waiting(t)
    ensures Reachable(c, s') && s'.workers == s.workers[0 := Ready] && s'.joiners == s.joiners[j := Locking(t)]
    ensures t in s'.tasks && s'.tasks[t].finished
    ensures s'.queue == s.queue && s'.phase == s.phase && s'.closer == s.closer && s'.pending == s.pending
  {
    var k := s.tasks[t];
    var reclaimed := Step(c, s, Reclaim(0), s.(workers := s.workers[0 := Reclaimed(t)],
                          tasks := s.tasks[t := k.(destroyed := k.independent)]));
    s' := Step(c, reclaimed, Release(0, Some(j)),
               reclaimed.(workers := s.workers[0 := Ready], joiners := s.joiners[j := Locking(t)]));
  }

  /** Two threads can both be asleep on one queued task. */
  lemma ReachTwoWaiting(c: Config, j: JoinerId, k: JoinerId) returns (s: State)
    requires j in c.joins && k in c.joins && j != k && c.joins[j] == c.joins[k]
    ensures Reachable(c, s) && s.workers == Start(c).workers && s.queue == [c.joins[j]] && c.joins[j] in s.tasks
    ensures s.joiners == map[j := Waiting(c.joins[j]), k := Waiting(c.joins[j])]
    ensures s.phase == ACTIVE && s.closer == NotCalled && s.pending == {}
  {
    var task := ReachQueued(c, c.joins[j]);
    s := JoinSleeps(c, Queued(c, c.joins[j], task), j);
    s := JoinSleeps(c, s, k);
  }

  /** With two joiners on one task, the single signal of line 149 wakes one of
      them and leaves the other asleep. */
  lemma ReachStranded(c: Config, j: JoinerId, k: JoinerId) returns (s: State)
    requires c.workers > 0 && j in c.joins && k in c.joins && j != k && c.joins[j] == c.joins[k]
    ensures Reachable(c, s) && Stranded(s, k)
    ensures s.joiners == map[j := Locking(c.joins[j]), k := Waiting(c.joins[j])]
    ensures s.queue == [] && s.phase == ACTIVE && s.closer == NotCalled && s.workers == Start(c).workers
    ensures s.pending == {}
  {
    var t := c.joins[j];
    var waiting := ReachTwoWaiting(c, j, k);
    var ran := RunTask(c, waiting, t);
    s := WakeJoiner(c, ran, t, j);
    assert s.workers == Start(c).workers;
  }

  lemma TwoJoinersStrand(c: Config, j: JoinerId, k: JoinerId)
    requires c.workers > 0 && j in c.joins && k in c.joins && j != k && c.joins[j] == c.joins[k]
    ensures exists s :: Reachable(c, s) && Stranded(s, k)
  {
    var s := ReachStranded(c, j, k);
  }

  lemma Step(c: Config, s: State, a: Action, s1: State) returns (s': State)
    requires Reachable(c, s) && Enabled(c, s, a) && s1 == Apply(c, s, a)
    ensures Reachable(c, s') && s' == s1
  {
    ReachableStep(c, s, a);
    s' := s1;
  }

  lemma JoinMisses(c: Config, s: State, j: JoinerId) returns (s': State)
    requires Reachable(c, s) && Enabled(c, s, JoinCall(j)) && !s.tasks[c.joins[j]].finished
    ensures Reachable(c, s') && s' == s.(joiners := s.joiners[j := Missed(c.joins[j])])
  {
    var t := c.joins[j];
    var called := Step(c, s, JoinCall(j), s.(joiners := s.joiners[j := Called(t)]));
    s' := Step(c, called, JoinRead(j), s.(joiners := s.joiners[j := Missed(t)]));
  }

  lemma JoinWaits(c: Config, s: State, j: JoinerId) returns (s': State)
    requires Reachable(c, s) && Enabled(c, s, JoinState(j)) && s.phase == ACTIVE
    requires !s.tasks[s.joiners[j].t].finished && LockFree(s, s.joiners[j].t)
    ensures Reachable(c, s') && s' == s.(joiners := s.joiners[j := Waiting(s.joiners[j].t)])
  {
    var t := s.joiners[j].t;
    var locking := Step(c, s, JoinState(j), s.(joiners := s.joiners[j := Locking(t)]));
    s' := Step(c, locking, JoinLock(j), s.(joiners := s.joiners[j := Waiting(t)]));
  }

  lemma JoinSleeps(c: Config, s: State, j: JoinerId) returns (s': State)
    requires Reachable(c, s) && Enabled(c, s, JoinCall(j)) && s.phase == ACTIVE
    requires !s.tasks[c.joins[j]].finished && LockFree(s, c.joins[j])
    ensures Reachable(c, s') && s' == s.(joiners := s.joiners[j := Waiting(c.joins[j])])
  {
    var missed := JoinMisses(c, s, j);
    s' := JoinWaits(c, missed, j);
  }

  /** A join signal is never missed exactly when no two threads join the same
      task (or there is nobody to run tasks at all). */
  lemma NeverStrandsExactly(c: Config)
    ensures NeverStrands(c) <==> c.workers == 0 || OneJoinerEach(c)
  {
    if c.workers == 0 || OneJoinerEach(c) {
      forall s, j | Reachable(c, s)
        ensures !Stranded(s, j)
      {
        ReachableJoinInv(c, s);
      }
    } else {
      var j, k :| j in c.joins && k in c.joins && j != k && c.joins[j] == c.joins[k];
      TwoJoinersStrand(c, j, k);
    }
  }

  /** A finished task is signalled by nobody but the worker that has finished it. */
  lemma NoNewSignal(c: Config, s: State, a: Action, t: TaskId)
    requires Ownership(s) && Staged(s) && Enabled(c, s, a)
    requires t in s.tasks && s.tasks[t].finished && !SignalDue(s, t)
    ensures !SignalDue(Apply(c, s, a), t)
  {
    var s' := Apply(c, s, a);
    forall w | 0 <= w < |s'.workers|
      ensures s'.workers[w] != Finished(t) && s'.workers[w] != Reclaimed(t)
    {
      if a.Execute? {
        assert Busy(s.workers[a.w]);
      }
    }
  }

  lemma StaysStranded(c: Config, s: State, j: JoinerId, a: Action)
    requires Inv(c, s) && Stranded(s, j) && Enabled(c, s, a) && a != SpuriousJoiner(j)
    ensures Stranded(Apply(c, s, a), j)
  {
    NoNewSignal(c, s, a, s.joiners[j].t);
  }

  /** A stranded joiner stays so: only a spurious wake-up can release it. */
  lemma {:induction false} StrandedForever(c: Config, s: State, j: JoinerId, run: seq<Action>)
    requires Inv(c, s) && Stranded(s, j) && CanRun(c, s, run) && SpuriousJoiner(j) !in run
    ensures Stranded(After(c, s, run), j)
    decreases |run|
  {
    if run != [] {
      InvStep(c, s, run[0]);
      StaysStranded(c, s, j, run[0]);
      StrandedForever(c, Apply(c, s, run[0]), j, run[1..]);
    }
  }
}
