/** Which steps use a task object after a worker has destroyed it, and from when on the pool
    no longer uses one, so that its owner may destroy it (pool.c 97-151). */
module PoolLifetime {
  import opened Wrappers
  import opened PoolProtocol
  import opened PoolSafety
  import opened PoolJoin
  import opened PoolShutdown
  import opened PoolProgress

  /** The step reads or writes task t, its lock or its condition: linking it in or linking
      another one behind it, unlinking it, running it, and every part of joining it. */
  ghost predicate Touches(s: State, a: Action, t: TaskId) {
    match a
    case Enqueue(added, _) => t == added || (s.queue != [] && t == s.queue[|s.queue| - 1])
    case WorkerLock(_) => s.queue != [] && t == s.queue[0]
    case LockTask(w) => Holds(s, w, t)
    case Execute(w) => Holds(s, w, t)
    case Reclaim(w) => Holds(s, w, t)
    case Release(w, _) => Holds(s, w, t)
    case JoinRead(j) => Joins(s, j, t)
    case JoinState(j) => Joins(s, j, t)
    case JoinLock(j) => Joins(s, j, t)
    case SpuriousJoiner(j) => Joins(s, j, t)
    case _ => false
  }

  ghost predicate Holds(s: State, w: nat, t: TaskId) {
    w < |s.workers| && Busy(s.workers[w]) && s.workers[w].t == t
  }

  ghost predicate Joins(s: State, j: JoinerId, t: TaskId) {
    j in s.joiners && s.joiners[j].t == t
  }

  lemma QueuedIsNew(s: State, i: nat)
    requires History(s) && i < |s.queue|
    ensures s.queue[i] in s.tasks && s.queue[i] !in s.dequeued
  {
    var n := |s.dequeued|;
    assert s.enqueued[n + i] == s.queue[i];
    assert forall k :: 0 <= k < n ==> s.enqueued[k] == s.dequeued[k];
  }

  /** A task that has not left the queue has not been destroyed. */
  lemma WaitingIsAlive(s: State, t: TaskId)
    requires DestroyedLast(s) && FinishedLeft(s) && t in s.tasks && t !in s.dequeued
    ensures !s.tasks[t].destroyed
  {
  }

  lemma QueueTouches(c: Config, s: State, a: Action, t: TaskId)
    requires Inv(c, s) && Enabled(c, s, a) && Touches(s, a, t) && (a.Enqueue? || a.WorkerLock?)
    ensures t in s.tasks && !s.tasks[t].destroyed
  {
    if a.Enqueue? && t == a.t {
      assert t !in s.enqueued;
    } else {
      QueuedIsNew(s, if a.Enqueue? then |s.queue| - 1 else 0);
    }
    WaitingIsAlive(s, t);
  }

  lemma JoinTouches(c: Config, s: State, j: JoinerId, t: TaskId)
    requires Inv(c, s) && JoinersKnown(c, s) && Joins(s, j, t)
    ensures t in s.tasks && !s.tasks[t].destroyed
  {
  }

  lemma HolderTouches(c: Config, s: State, a: Action, t: TaskId)
    requires Inv(c, s) && Enabled(c, s, a) && Touches(s, a, t) && CoreAction(a) && !a.WorkerLock?
    ensures t in s.tasks && (s.tasks[t].destroyed <==> a.Release? && s.tasks[t].independent)
  {
    assert Busy(s.workers[a.w]);
  }

  /** Among all steps of all threads only the signal and unlock of lines 149 and 150 use a
      task that line 147 has destroyed, and they do so exactly when it is independent. */
  lemma TouchesDestroyedExactly(c: Config, s: State, a: Action, t: TaskId)
    requires Reachable(c, s) && Enabled(c, s, a) && Touches(s, a, t)
    ensures t in s.tasks && (s.tasks[t].destroyed <==> a.Release? && s.tasks[t].independent)
  {
    ReachableJoinInv(c, s);
    if a.Enqueue? || a.WorkerLock? {
      QueueTouches(c, s, a, t);
    } else if CoreAction(a) {
      HolderTouches(c, s, a, t);
    } else {
      JoinTouches(c, s, a.j, t);
    }
  }

  lemma ReachIndependent(c: Config, t: TaskId) returns (s: State)
    ensures Reachable(c, s) && s.queue == [t] && s.workers == Start(c).workers && s.joiners == map[]
    ensures t in s.tasks && s.tasks[t].independent
  {
    var id: int -> int := x => x;
    var k := Task(id, 0, true, false, 0, false);
    var start := Start(c);
    assert CanRun(c, start, []);
    var created := Step(c, start, CreateCheck(t, id, 0, true), start.(tasks := map[t := k], pending := {t}));
    s := Step(c, created, Enqueue(t, WakeNobody), DoEnqueue(created, t, WakeNobody));
  }

  /** It does happen, in every pool with a worker. */
  lemma ReachDestroyed(c: Config, t: TaskId) returns (s: State, a: Action)
    requires c.workers > 0
    ensures Reachable(c, s) && Enabled(c, s, a) && Touches(s, a, t) && t in s.tasks && s.tasks[t].destroyed
  {
    var queued := ReachIndependent(c, t);
    var ran := RunTask(c, queued, t);
    s := Step(c, ran, Reclaim(0), ran.(workers := ran.workers[0 := Reclaimed(t)],
              tasks := ran.tasks[t := ran.tasks[t].(destroyed := true)]));
    a := Release(0, None);
  }

  // ---- When an owner may destroy a task that is not independent ----

  predicate JoinAction(a: Action) {
    a.JoinRead? || a.JoinState? || a.JoinLock? || a.SpuriousJoiner?
  }

  /** From s on no step uses task t, whatever happens, but those of threads that join it. */
  ghost predicate PoolIsDone(c: Config, s: State, t: TaskId) {
    forall run, a ::
      CanRun(c, s, run) && Enabled(c, After(c, s, run), a) && Touches(After(c, s, run), a, t) ==> JoinAction(a)
  }

  lemma QueueTouchIsUnsettled(c: Config, s: State, a: Action, t: TaskId)
    requires Inv(c, s) && Enabled(c, s, a) && Touches(s, a, t) && (a.Enqueue? || a.WorkerLock?)
    ensures !Settled(s, t)
  {
    if a.Enqueue? && t == a.t {
      assert t !in s.enqueued;
    } else {
      QueuedIsNew(s, if a.Enqueue? then |s.queue| - 1 else 0);
    }
  }

  lemma HolderTouchIsUnsettled(c: Config, s: State, a: Action, t: TaskId)
    requires Inv(c, s) && Enabled(c, s, a) && Touches(s, a, t) && CoreAction(a) && !a.WorkerLock?
    ensures !Settled(s, t)
  {
    assert Busy(s.workers[a.w]);
    if s.workers[a.w].Finished? || s.workers[a.w].Reclaimed? {
      assert SignalDue(s, t);
    }
  }

  lemma SettledIsLeftAlone(c: Config, s: State, a: Action, t: TaskId)
    requires Inv(c, s) && Settled(s, t) && Enabled(c, s, a) && Touches(s, a, t)
    ensures JoinAction(a)
  {
    if a.Enqueue? || a.WorkerLock? {
      QueueTouchIsUnsettled(c, s, a, t);
    } else if CoreAction(a) {
      HolderTouchIsUnsettled(c, s, a, t);
    }
  }

  lemma {:induction false} SettledAfter(c: Config, s: State, run: seq<Action>, t: TaskId)
    requires Inv(c, s) && Settled(s, t) && CanRun(c, s, run)
    ensures Inv(c, After(c, s, run)) && Settled(After(c, s, run), t)
    decreases |run|
  {
    if run != [] {
      InvStep(c, s, run[0]);
      SettledStays(c, s, run[0], t);
      SettledAfter(c, Apply(c, s, run[0]), run[1..], t);
    }
  }

  lemma SettledIsDone(c: Config, s: State, t: TaskId)
    requires Inv(c, s) && Settled(s, t)
    ensures PoolIsDone(c, s, t)
  {
    forall run, a | CanRun(c, s, run) && Enabled(c, After(c, s, run), a) && Touches(After(c, s, run), a, t)
      ensures JoinAction(a)
    {
      SettledAfter(c, s, run, t);
      SettledIsLeftAlone(c, After(c, s, run), a, t);
    }
  }

  lemma SignalDueIsNotDone(c: Config, s: State, t: TaskId)
    requires Inv(c, s) && SignalDue(s, t)
    ensures !PoolIsDone(c, s, t)
  {
    var w :| 0 <= w < |s.workers| && (s.workers[w] == Finished(t) || s.workers[w] == Reclaimed(t));
    var a := AwakeIsEnabled(c, s, w);
    assert Holds(s, w, t) && Touches(s, a, t) && !JoinAction(a);
    var run: seq<Action> := [];
    assert CanRun(c, s, run) && Enabled(c, After(c, s, run), a) && Touches(After(c, s, run), a, t);
  }

  /** The pool is done with a finished task exactly when its worker is past line 150. */
  lemma DoneExactly(c: Config, s: State, t: TaskId)
    requires Reachable(c, s) && t in s.tasks && s.tasks[t].finished
    ensures PoolIsDone(c, s, t) <==> !SignalDue(s, t)
  {
    ReachableInv(c, s);
    if SignalDue(s, t) {
      SignalDueIsNotDone(c, s, t);
    } else {
      SettledIsDone(c, s, t);
    }
  }

  /** A join that has waited for the task's lock returns 0 after the pool is done with it. */
  lemma LockedJoinIsDone(c: Config, s: State, j: JoinerId)
    requires Reachable(c, s) && Enabled(c, s, JoinLock(j)) && s.tasks[s.joiners[j].t].finished
    ensures Apply(c, s, JoinLock(j)).joiners[j] == Returned(s.joiners[j].t, 0)
    ensures PoolIsDone(c, Apply(c, s, JoinLock(j)), s.joiners[j].t)
  {
    var s', t := Apply(c, s, JoinLock(j)), s.joiners[j].t;
    ReachableStep(c, s, JoinLock(j));
    assert forall w :: 0 <= w < |s'.workers| ==> !HoldsLock(s.workers[w], t);
    DoneExactly(c, s', t);
  }

  /** Once the pool is freed it is done with every finished task. */
  lemma FreedIsDone(c: Config, s: State, t: TaskId)
    requires Reachable(c, s) && s.closer == Freed && t in s.tasks && s.tasks[t].finished
    ensures PoolIsDone(c, s, t)
  {
    ReachableInv(c, s);
    DoneExactly(c, s, t);
  }

  ghost predicate Joined0(s: State, j: JoinerId) {
    j in s.joiners && s.joiners[j].Returned? && s.joiners[j].code == 0
  }

  /** A return of 0 means that the pool is done with the task. */
  ghost predicate JoinedMeansDone(c: Config) {
    forall s, j :: Reachable(c, s) && Joined0(s, j) ==> PoolIsDone(c, s, s.joiners[j].t)
  }

  /** The read of line 111 can return 0 while the worker has lines 146 to 150 ahead. */
  lemma ReturnsTooEarly(c: Config, j: JoinerId) returns (s: State)
    requires c.workers > 0 && j in c.joins
    ensures Reachable(c, s) && s.joiners == map[j := Returned(c.joins[j], 0)] && SignalDue(s, c.joins[j])
  {
    var t := c.joins[j];
    var k := ReachQueued(c, t);
    var queued := Queued(c, t, k);
    var called := Step(c, queued, JoinCall(j), queued.(joiners := map[j := Called(t)]));
    var ran := RunTask(c, called, t);
    assert ran.workers[0] == Finished(t);
    s := Step(c, ran, JoinRead(j), ran.(joiners := map[j := Returned(t, 0)]));
    assert s.workers[0] == Finished(t);
  }

  /** Without workers, or without joins, no join returns 0. */
  lemma NobodyJoined(c: Config, s: State, j: JoinerId)
    requires Reachable(c, s) && (c.workers == 0 || c.joins == map[])
    ensures !Joined0(s, j)
  {
    ReachableJoinInv(c, s);
  }

  /** So a joined task may be destroyed at once only where no join can return 0 at all. */
  lemma JoinedMeansDoneExactly(c: Config)
    ensures JoinedMeansDone(c) <==> c.workers == 0 || c.joins == map[]
  {
    if c.workers == 0 || c.joins == map[] {
      forall s, j | Reachable(c, s)
        ensures !Joined0(s, j)
      {
        NobodyJoined(c, s, j);
      }
    } else {
      var j :| j in c.joins;
      var s := ReturnsTooEarly(c, j);
      ReachableInv(c, s);
      SignalDueIsNotDone(c, s, c.joins[j]);
      assert Joined0(s, j);
    }
  }

  // ---- The pool object itself ----

  /** Somebody is about to use the pool: a creator at line 97, a joiner at line 113. */
  ghost predicate PoolInUse(s: State) {
    s.pending != {} || exists j :: j in s.joiners && s.joiners[j].Missed?
  }

  /** Task t could be joined, and the join would find it unfinished. */
  ghost predicate Unfinished(s: State, t: TaskId) {
    t in s.enqueued && t in s.tasks && !s.tasks[t].independent && !s.tasks[t].finished
  }

  /** No creator is pending, and no join is under way or still to come that would find its
      task unfinished at line 111. */
  ghost predicate Abandoned(c: Config, s: State) {
    && s.pending == {}
    && (forall j :: j in s.joiners ==>
          !s.joiners[j].Missed? && (s.joiners[j].Called? ==> !Unfinished(s, s.joiners[j].t)))
    && (forall j :: j in c.joins && j !in s.joiners ==> !Unfinished(s, c.joins[j]))
  }

  ghost predicate NeverInUse(c: Config, s: State) {
    forall run :: CanRun(c, s, run) ==> !PoolInUse(After(c, s, run))
  }

  /** A freed pool gets no new tasks, and its workers are gone. */
  lemma FreedStep(c: Config, s: State, a: Action)
    requires Inv(c, s) && s.closer == Freed && Enabled(c, s, a)
    ensures Apply(c, s, a).closer == Freed && Apply(c, s, a).tasks == s.tasks
    ensures Apply(c, s, a).enqueued == s.enqueued && Apply(c, s, a).pending == s.pending
  {
  }

  /** A step changes no joiner but one, which does not find a finished task unfinished. */
  lemma AbandonedStep(c: Config, s: State, a: Action)
    requires Inv(c, s) && JoinersKnown(c, s) && s.closer == Freed && Abandoned(c, s) && Enabled(c, s, a)
    ensures Abandoned(c, Apply(c, s, a))
  {
    FreedStep(c, s, a);
    forall j | j in Apply(c, s, a).joiners
      ensures !Apply(c, s, a).joiners[j].Missed?
      ensures Apply(c, s, a).joiners[j].Called? ==> !Unfinished(s, Apply(c, s, a).joiners[j].t)
    {
      AbandonedJoiner(c, s, a, j);
    }
    JoinersStay(c, s, a);
  }

  lemma JoinersStay(c: Config, s: State, a: Action)
    requires Enabled(c, s, a)
    ensures forall j :: j in s.joiners ==> j in Apply(c, s, a).joiners
  {
  }

  lemma AbandonedJoiner(c: Config, s: State, a: Action, j: JoinerId)
    requires JoinersKnown(c, s) && Abandoned(c, s) && Enabled(c, s, a) && j in Apply(c, s, a).joiners
    ensures !Apply(c, s, a).joiners[j].Missed?
    ensures Apply(c, s, a).joiners[j].Called? ==> !Unfinished(s, Apply(c, s, a).joiners[j].t)
  {
    if a != JoinRead(j) && a != JoinCall(j) {
      NeitherCalls(c, s, a, j);
    }
  }

  /** Only its own steps bring a joiner to lines 111 and 113. */
  lemma NeitherCalls(c: Config, s: State, a: Action, j: JoinerId)
    requires Enabled(c, s, a) && j in Apply(c, s, a).joiners && a != JoinRead(j) && a != JoinCall(j)
    ensures var x := Apply(c, s, a).joiners[j];
      x.Called? || x.Missed? ==> j in s.joiners && s.joiners[j] == x
  {
  }

  lemma {:induction false} AbandonedAfter(c: Config, s: State, run: seq<Action>)
    requires Reachable(c, s) && s.closer == Freed && Abandoned(c, s) && CanRun(c, s, run)
    ensures Abandoned(c, After(c, s, run))
    decreases |run|
  {
    if run != [] {
      ReachableJoinInv(c, s);
      FreedStep(c, s, run[0]);
      AbandonedStep(c, s, run[0]);
      ReachableStep(c, s, run[0]);
      AbandonedAfter(c, Apply(c, s, run[0]), run[1..]);
    }
  }

  /** A join that finds its task unfinished comes to line 113. */
  lemma ComesToUse(c: Config, s: State, j: JoinerId) returns (run: seq<Action>)
    requires JoinersKnown(c, s) && j in c.joins && Unfinished(s, c.joins[j])
    requires j !in s.joiners || s.joiners[j].Called?
    ensures CanRun(c, s, run) && PoolInUse(After(c, s, run))
  {
    var s1 := s;
    run := [];
    if j !in s.joiners {
      run := [JoinCall(j)];
      s1 := Apply(c, s, JoinCall(j));
    }
    var read: seq<Action> := [JoinRead(j)];
    CanRunCons(c, s1, JoinRead(j), []);
    assert [JoinRead(j)] + [] == read;
    assert After(c, s1, read).joiners[j].Missed?;
    if j !in s.joiners {
      CanRunCons(c, s, JoinCall(j), read);
      run := [JoinCall(j)] + read;
    } else {
      run := read;
    }
  }

  /** Nobody uses a freed pool any more, on any run, exactly when it is abandoned. */
  lemma FreedUnusedExactly(c: Config, s: State)
    requires Reachable(c, s) && s.closer == Freed
    ensures NeverInUse(c, s) <==> Abandoned(c, s)
  {
    ReachableJoinInv(c, s);
    if Abandoned(c, s) {
      forall run | CanRun(c, s, run)
        ensures !PoolInUse(After(c, s, run))
      {
        AbandonedAfter(c, s, run);
      }
    } else if PoolInUse(s) {
      var run: seq<Action> := [];
      assert CanRun(c, s, run) && PoolInUse(After(c, s, run));
    } else {
      var j := WouldUse(c, s);
      var run := ComesToUse(c, s, j);
    }
  }

  lemma WouldUse(c: Config, s: State) returns (j: JoinerId)
    requires JoinersKnown(c, s) && !Abandoned(c, s) && !PoolInUse(s)
    ensures j in c.joins && Unfinished(s, c.joins[j]) && (j !in s.joiners || s.joiners[j].Called?)
  {
    if i :| i in s.joiners && s.joiners[i].Called? && Unfinished(s, s.joiners[i].t) {
      j := i;
    } else {
      j :| j in c.joins && j !in s.joiners && Unfinished(s, c.joins[j]);
    }
  }
}
