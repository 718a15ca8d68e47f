/** The thread pool of pool.c as a state machine: one action for every critical
    section, every unlocked read and every condition-variable wake-up.  Any number
    of creators, workers and joiners interleave with one shutdown thread. */
module PoolProtocol {
  import opened Wrappers

  type TaskId = nat
  type JoinerId = nat

  datatype Phase = ACTIVE | FLUSH | SHUTDOWN

  /** A pool_task_s object; `destroyed` once pool_destroy_task has been called on it. */
  datatype Task = Task(f: int -> int, arg: int, independent: bool,
                       finished: bool, result: int, destroyed: bool)

  /** Where a core thread is.  Running, Finished and Reclaimed workers hold the task's lock. */
  datatype Worker =
    | Ready               // about to lock qlock (136), or woken and about to re-lock it
    | Asleep              // waiting on qcond (138)
    | Taken(t: TaskId)    // has unlinked t (142), not yet locked it
    | Running(t: TaskId)  // inside f(arg) (144)
    | Finished(t: TaskId) // isfinished is set (145)
    | Reclaimed(t: TaskId)// past the destroy of 146-148, about to signal and unlock
    | Exited              // pthread_exit (155)

  datatype Closer =
    | NotCalled
    | FlushAsleep         // waiting on qcond (169)
    | FlushReady          // woken, about to re-lock qlock
    | Joining(i: nat)     // in the pthread_join loop (177)
    | Freed               // free(pool) (182)

  datatype Joiner =
    | Called(t: TaskId)               // about to read isfinished (111)
    | Missed(t: TaskId)               // about to read the pool state (113)
    | Locking(t: TaskId)              // about to (re-)lock the task (116, 118)
    | Waiting(t: TaskId)              // asleep on the task's condition (118)
    | Returned(t: TaskId, code: int)

  /** The number of core threads, and which task each joiner thread joins. */
  datatype Config = Config(workers: nat, joins: map<JoinerId, TaskId>)

  datatype State = State(
    phase: Phase,
    queue: seq<TaskId>,              // the head/tail list
    tasks: map<TaskId, Task>,
    pending: set<TaskId>,            // creators between the state check (73) and qlock (97)
    workers: seq<Worker>,
    closer: Closer,
    joiners: map<JoinerId, Joiner>,
    enqueued: seq<TaskId>,           // history: every task linked in, in order
    dequeued: seq<TaskId>,           // history: every task unlinked, in order
    executed: seq<(nat, TaskId)>)    // history: which worker ran which task

  /** The thread a pthread_cond_signal on qcond wakes. */
  datatype Wake = WakeNobody | WakeWorker(w: nat) | WakeCloser

  datatype Action =
    | CreateCheck(t: TaskId, f: int -> int, arg: int, independent: bool)
    | CreateRefused
    | Enqueue(t: TaskId, wake: Wake)
    | WorkerLock(w: nat)
    | LockTask(w: nat)
    | Execute(w: nat)
    | Reclaim(w: nat)
    | Release(w: nat, joiner: Option<JoinerId>)
    | SpuriousWorker(w: nat)
    | ShutdownCall
    | ShutdownRecheck
    | SpuriousCloser
    | JoinThread
    | FreePool
    | JoinCall(j: JoinerId)
    | JoinRead(j: JoinerId)
    | JoinState(j: JoinerId)
    | JoinLock(j: JoinerId)
    | SpuriousJoiner(j: JoinerId)
    | Stutter

  ghost predicate HoldsLock(w: Worker, t: TaskId) {
    w == Running(t) || w == Finished(t) || w == Reclaimed(t)
  }

  ghost predicate LockFree(s: State, t: TaskId) {
    forall w :: 0 <= w < |s.workers| ==> !HoldsLock(s.workers[w], t)
  }

  /** POSIX: a signal wakes a waiter whenever there is one. */
  ghost predicate CanWake(s: State, wake: Wake) {
    match wake
    case WakeNobody => Asleep !in s.workers && s.closer != FlushAsleep
    case WakeWorker(w) => w < |s.workers| && s.workers[w] == Asleep
    case WakeCloser => s.closer == FlushAsleep
  }

  ghost predicate WorkerAt(s: State, w: nat) {
    w < |s.workers|
  }

  ghost predicate JoinerAt(s: State, j: JoinerId) {
    j in s.joiners && s.joiners[j].t in s.tasks
  }

  ghost predicate Enabled(c: Config, s: State, a: Action) {
    match a
    case CreateCheck(t, _, _, _) => s.phase == ACTIVE && t !in s.tasks
    case CreateRefused => s.phase != ACTIVE
    case Enqueue(t, wake) => t in s.pending && s.closer != Freed && CanWake(s, wake)
    case WorkerLock(w) => WorkerAt(s, w) && s.workers[w] == Ready
    case LockTask(w) => WorkerAt(s, w) && s.workers[w].Taken? && LockFree(s, s.workers[w].t)
    case Execute(w) => WorkerAt(s, w) && s.workers[w].Running? && s.workers[w].t in s.tasks
    case Reclaim(w) => WorkerAt(s, w) && s.workers[w].Finished? && s.workers[w].t in s.tasks
    case Release(w, joiner) => WorkerAt(s, w) && s.workers[w].Reclaimed? && CanWakeJoiner(s, s.workers[w].t, joiner)
    case SpuriousWorker(w) => WorkerAt(s, w) && s.workers[w] == Asleep
    case ShutdownCall => s.closer == NotCalled
    case ShutdownRecheck => s.closer == FlushReady
    case SpuriousCloser => s.closer == FlushAsleep
    case JoinThread => s.closer.Joining? && s.closer.i < |s.workers| && s.workers[s.closer.i] == Exited
    case FreePool => s.closer == Joining(|s.workers|)
    case JoinCall(j) => j in c.joins && j !in s.joiners && c.joins[j] in s.enqueued
                        && c.joins[j] in s.tasks && !s.tasks[c.joins[j]].independent
    case JoinRead(j) => JoinerAt(s, j) && s.joiners[j].Called?
    case JoinState(j) => JoinerAt(s, j) && s.joiners[j].Missed?
    case JoinLock(j) => JoinerAt(s, j) && s.joiners[j].Locking? && LockFree(s, s.joiners[j].t)
    case SpuriousJoiner(j) => JoinerAt(s, j) && s.joiners[j].Waiting?
    case Stutter => true
  }

  ghost predicate CanWakeJoiner(s: State, t: TaskId, joiner: Option<JoinerId>) {
    match joiner
    case None => forall j :: j in s.joiners ==> s.joiners[j] != Waiting(t)
    case Some(j) => j in s.joiners && s.joiners[j] == Waiting(t)
  }

  ghost function Woken(ws: seq<Worker>): (r: seq<Worker>)
    ensures |r| == |ws|
    ensures forall w :: 0 <= w < |ws| ==> r[w] == if ws[w] == Asleep then Ready else ws[w]
  {
    seq(|ws|, w requires 0 <= w < |ws| => if ws[w] == Asleep then Ready else ws[w])
  }

  /** Lines 97-106: append under qlock and signal qcond. */
  ghost function DoEnqueue(s: State, t: TaskId, wake: Wake): State
    requires CanWake(s, wake)
  {
    var s1 := s.(queue := s.queue + [t], enqueued := s.enqueued + [t], pending := s.pending - {t});
    match wake
    case WakeNobody => s1
    case WakeWorker(w) => s1.(workers := s.workers[w := Ready])
    case WakeCloser => s1.(closer := FlushReady)
  }

  /** Lines 136-142 and 152-155: take the head, go to sleep, or exit. */
  ghost function DoWorkerLock(s: State, w: nat): State
    requires WorkerAt(s, w)
  {
    if s.queue != [] then
      s.(workers := s.workers[w := Taken(s.queue[0])], queue := s.queue[1..], dequeued := s.dequeued + [s.queue[0]])
    else if s.phase == ACTIVE then s.(workers := s.workers[w := Asleep])
    else s.(workers := s.workers[w := Exited])
  }

  /** Lines 144-145. */
  ghost function DoExecute(s: State, w: nat, t: TaskId): State
    requires WorkerAt(s, w) && t in s.tasks
  {
    var k := s.tasks[t];
    s.(workers := s.workers[w := Finished(t)],
       tasks := s.tasks[t := k.(result := k.f(k.arg), finished := true)],
       executed := s.executed + [(w, t)])
  }

  /** Lines 168-175, with qlock held: sleep while the queue has tasks, otherwise
      announce the shutdown and wake every worker. */
  ghost function DoFlush(s: State): State {
    if s.queue != [] then s.(closer := FlushAsleep)
    else s.(phase := SHUTDOWN, closer := Joining(0), workers := Woken(s.workers))
  }

  ghost function Apply(c: Config, s: State, a: Action): State
    requires Enabled(c, s, a)
  {
    match a
    case CreateCheck(t, f, arg, independent) =>
      s.(tasks := s.tasks[t := Task(f, arg, independent, false, 0, false)], pending := s.pending + {t})
    case CreateRefused => s
    case Enqueue(t, wake) => DoEnqueue(s, t, wake)
    case WorkerLock(w) => DoWorkerLock(s, w)
    case LockTask(w) => s.(workers := s.workers[w := Running(s.workers[w].t)])
    case Execute(w) => DoExecute(s, w, s.workers[w].t)
    case Reclaim(w) =>
      var t := s.workers[w].t;
      s.(workers := s.workers[w := Reclaimed(t)],
         tasks := s.tasks[t := s.tasks[t].(destroyed := s.tasks[t].independent)])
    case Release(w, joiner) =>
      var s1 := s.(workers := s.workers[w := Ready]);
      if joiner.None? then s1
      else s1.(joiners := s.joiners[joiner.value := Locking(s.workers[w].t)])
    case SpuriousWorker(w) => s.(workers := s.workers[w := Ready])
    case ShutdownCall => DoFlush(s.(phase := FLUSH))
    case ShutdownRecheck => DoFlush(s)
    case SpuriousCloser => s.(closer := FlushReady)
    case JoinThread => s.(closer := Joining(s.closer.i + 1))
    case FreePool => s.(closer := Freed)
    case JoinCall(j) => s.(joiners := s.joiners[j := Called(c.joins[j])])
    case JoinRead(j) =>
      var t := s.joiners[j].t;
      s.(joiners := s.joiners[j := if s.tasks[t].finished then Returned(t, 0) else Missed(t)])
    case JoinState(j) =>
      var t := s.joiners[j].t;
      s.(joiners := s.joiners[j := if s.phase == SHUTDOWN then Returned(t, -1) else Locking(t)])
    case JoinLock(j) =>
      var t := s.joiners[j].t;
      s.(joiners := s.joiners[j := if s.tasks[t].finished then Returned(t, 0) else Waiting(t)])
    case SpuriousJoiner(j) => s.(joiners := s.joiners[j := Locking(s.joiners[j].t)])
    case Stutter => s
  }

  /** The state pool_init leaves: an active, empty pool whose workers have just started. */
  ghost function Start(c: Config): State {
    State(ACTIVE, [], map[], {}, seq(c.workers, _ => Ready), NotCalled, map[], [], [], [])
  }

  // ---- Runs ----

  /** Every action of `run`, taken in order from s, is enabled. */
  ghost predicate CanRun(c: Config, s: State, run: seq<Action>)
    decreases |run|
  {
    run == [] || (Enabled(c, s, run[0]) && CanRun(c, Apply(c, s, run[0]), run[1..]))
  }

  ghost function After(c: Config, s: State, run: seq<Action>): State
    requires CanRun(c, s, run)
    decreases |run|
  {
    if run == [] then s else After(c, Apply(c, s, run[0]), run[1..])
  }

  ghost predicate Reachable(c: Config, s: State) {
    exists run :: CanRun(c, Start(c), run) && After(c, Start(c), run) == s
  }

  lemma {:induction false} RunsCompose(c: Config, s: State, run: seq<Action>, more: seq<Action>)
    requires CanRun(c, s, run) && CanRun(c, After(c, s, run), more)
    ensures CanRun(c, s, run + more)
    ensures After(c, s, run + more) == After(c, After(c, s, run), more)
    decreases |run|
  {
    if run == [] {
      assert run + more == more;
    } else {
      assert (run + more)[0] == run[0] && (run + more)[1..] == run[1..] + more;
      RunsCompose(c, Apply(c, s, run[0]), run[1..], more);
    }
  }

  lemma ReachableStep(c: Config, s: State, a: Action)
    requires Reachable(c, s) && Enabled(c, s, a)
    ensures Reachable(c, Apply(c, s, a))
  {
    var run :| CanRun(c, Start(c), run) && After(c, Start(c), run) == s;
    assert CanRun(c, s, [a]);
    RunsCompose(c, Start(c), run, [a]);
  }
}
