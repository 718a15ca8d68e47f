/** The linked list of tasks inside pool_s (pool.c 22-30, 97-106, 139-142). */
module TaskQueue {
  import opened PoolProtocol

  class PoolTask {
    const f: int -> int
    const arg: int
    const independent: bool
    var finished: bool
    var result: int
    var next: PoolTask?

    constructor (f: int -> int, arg: int, independent: bool)
      ensures this.f == f && this.arg == arg && this.independent == independent
      ensures !finished && result == 0 && next == null
    {
      this.f, this.arg, this.independent := f, arg, independent;
      finished, result, next := false, 0, null;
    }
  }

  class Pool {
    var state: Phase
    var head: PoolTask?
    var tail: PoolTask?
    ghost var queue: seq<PoolTask>  // the tasks linked from head, in order

    /** head starts the chain of queued tasks, and tail is its end.  When nothing
        is queued, tail is stale: it still names the last task that was dequeued. */
    ghost predicate Valid()
      reads this, queue
    {
      && head == (if queue == [] then null else queue[0])
      && (queue != [] ==> tail == queue[|queue| - 1] && queue[|queue| - 1].next == null)
      && (forall i, k :: 0 <= i && k == i + 1 < |queue| ==> queue[i].next == queue[k])
      && (forall i, k :: 0 <= i < k < |queue| ==> queue[i] != queue[k])
    }

    /** The only task object that linking in a new task may write to. */
    ghost function LastQueued(): set<PoolTask>
      reads this
    {
      if queue == [] then {} else {queue[|queue| - 1]}
    }

    constructor ()
      ensures Valid() && queue == [] && state == ACTIVE
    {
      state, head, tail, queue := ACTIVE, null, null, [];
    }

    /** pool_task_create without its locking: refuse unless the pool is active,
        otherwise append a fresh task.  Tasks that are no longer queued, among them
        a stale tail, are not written to. */
    method TaskCreate(f: int -> int, arg: int, independent: bool) returns (t: PoolTask?)
      requires Valid()
      modifies this`head, this`tail, this`queue, LastQueued()`next
      ensures Valid()
      ensures (t == null) <==> state != ACTIVE
      ensures t == null ==> queue == old(queue) && head == old(head) && tail == old(tail)
      ensures t != null ==>
        && fresh(t) && queue == old(queue) + [t] && tail == t
        && t.f == f && t.arg == arg && t.independent == independent && !t.finished
    {
      if state != ACTIVE {
        return null;
      }
      t := new PoolTask(f, arg, independent);
      if head != null {
        tail.next := t;
      } else {
        head := t;
      }
      tail := t;
      queue := queue + [t];
    }

    /** The part of core_thread that unlinks the head; null when nothing is queued.
        tail is left alone, even when the queue becomes empty. */
    method Take() returns (t: PoolTask?)
      requires Valid()
      modifies this`head, this`queue
      ensures Valid()
      ensures (t == null) <==> old(queue) == []
      ensures t == null ==> queue == [] && head == old(head)
      ensures t != null ==> old(queue) == [t] + queue
      ensures t != null && queue == [] ==> tail == t
    {
      if head == null {
        return null;
      }
      t := head;
      head := head.next;
      queue := queue[1..];
      assert forall i :: 0 <= i < |queue| ==> queue[i] == old(queue)[i + 1];
    }

    /** Lines 143-145: run the task's function and record its result. */
    static method Run(t: PoolTask)
      modifies t`finished, t`result
      ensures t.finished && t.result == t.f(t.arg)
    {
      t.result := t.f(t.arg);
      t.finished := true;
    }
  }

  /** Filling the pool and emptying it again hands out the same tasks in the same
      order, and leaves tail naming a task that is no longer queued. */
  method FillAndEmpty(pool: Pool, args: seq<int>, f: int -> int) returns (created: seq<PoolTask>, taken: seq<PoolTask>)
    requires pool.Valid() && pool.queue == [] && pool.state == ACTIVE
    modifies pool`head, pool`tail, pool`queue
    ensures pool.Valid() && pool.queue == [] && taken == created && |created| == |args|
    ensures forall i :: 0 <= i < |args| ==> created[i].arg == args[i]
    ensures args != [] ==> pool.tail == created[|created| - 1]
  {
    created, taken := [], [];
    for i := 0 to |args|
      invariant pool.Valid() && pool.state == ACTIVE && pool.queue == created && |created| == i
      invariant forall k :: 0 <= k < i ==> fresh(created[k]) && created[k].arg == args[k]
    {
      var t := pool.TaskCreate(f, args[i], false);
      created := created + [t];
    }
    var t := pool.Take();
    while t != null
      invariant pool.Valid() && pool.state == ACTIVE
      invariant t != null ==> created == taken + [t] + pool.queue
      invariant t == null ==> created == taken && pool.queue == []
      invariant created != [] ==> pool.tail == created[|created| - 1]
      decreases |pool.queue|, t != null
    {
      taken := taken + [t];
      t := pool.Take();
    }
  }

  /** core_thread while nobody else uses the pool: everything queued is run, in order,
      and holds the result of its own function on its own argument. */
  method WorkUntilEmpty(pool: Pool) returns (done: seq<PoolTask>)
    requires pool.Valid()
    modifies pool`head, pool`queue, pool.queue`finished, pool.queue`result
    ensures pool.Valid() && pool.queue == [] && done == old(pool.queue)
    ensures forall i :: 0 <= i < |done| ==> done[i].finished && done[i].result == done[i].f(done[i].arg)
  {
    ghost var all := pool.queue;
    done := [];
    var t := pool.Take();
    while t != null
      invariant pool.Valid()
      invariant t != null ==> all == done + [t] + pool.queue
      invariant t == null ==> all == done && pool.queue == []
      invariant forall i :: 0 <= i < |done| ==> done[i].finished && done[i].result == done[i].f(done[i].arg)
      decreases |pool.queue|, t != null
    {
      assert t == all[|done|];
      Pool.Run(t);
      done := done + [t];
      t := pool.Take();
    }
  }

  // ---- Any interleaving of creating and taking ----

  datatype QueueCall = CreateCall(f: int -> int, arg: int, independent: bool) | TakeCall

  /** How many of the calls take a task, when n are queued before them. */
  function Served(n: nat, calls: seq<QueueCall>): nat
    decreases |calls|
  {
    if calls == [] then 0
    else if calls[0].CreateCall? then Served(n + 1, calls[1..])
    else if n == 0 then Served(0, calls[1..])
    else 1 + Served(n - 1, calls[1..])
  }

  /** The arguments of the tasks that the calls create. */
  function Arguments(calls: seq<QueueCall>): seq<int>
    decreases |calls|
  {
    if calls == [] then []
    else (if calls[0].CreateCall? then [calls[0].arg] else []) + Arguments(calls[1..])
  }

  ghost function ArgumentsOf(ts: seq<PoolTask>): (args: seq<int>) {
    seq(|ts|, i requires 0 <= i < |ts| => ts[i].arg)
  }

  method Perform(pool: Pool, call: QueueCall) returns (t: PoolTask?)
    requires pool.Valid() && pool.state == ACTIVE
    modifies pool`head, pool`tail, pool`queue, pool.LastQueued()`next
    ensures pool.Valid()
    ensures call.CreateCall? ==> t != null && fresh(t) && t.arg == call.arg && pool.queue == old(pool.queue) + [t]
    ensures call.TakeCall? && t != null ==> old(pool.queue) == [t] + pool.queue
    ensures call.TakeCall? && t == null ==> old(pool.queue) == pool.queue == []
  {
    match call
    case CreateCall(f, arg, independent) => t := pool.TaskCreate(f, arg, independent);
    case TakeCall => t := pool.Take();
  }

  /** The calls from i on lead from these created, taken and queued tasks to the end. */
  ghost predicate Continues(calls: seq<QueueCall>, i: nat, first: seq<PoolTask>,
                            created: seq<PoolTask>, taken: seq<PoolTask>, queue: seq<PoolTask>)
    requires i <= |calls|
  {
    && ArgumentsOf(created) + Arguments(calls[i..]) == Arguments(calls)
    && |taken| + Served(|queue|, calls[i..]) == Served(|first|, calls)
    && first + created == taken + queue
  }

  lemma ContinuesCreate(calls: seq<QueueCall>, i: nat, first: seq<PoolTask>,
                        created: seq<PoolTask>, taken: seq<PoolTask>, queue: seq<PoolTask>, t: PoolTask)
    requires i < |calls| && Continues(calls, i, first, created, taken, queue)
    requires calls[i].CreateCall? && t.arg == calls[i].arg
    ensures Continues(calls, i + 1, first, created + [t], taken, queue + [t])
  {
    assert calls[i..][1..] == calls[i + 1..];
    assert ArgumentsOf(created + [t]) == ArgumentsOf(created) + [t.arg];
    assert first + (created + [t]) == first + created + [t];
    assert taken + (queue + [t]) == taken + queue + [t];
  }

  lemma ContinuesTake(calls: seq<QueueCall>, i: nat, first: seq<PoolTask>,
                      created: seq<PoolTask>, taken: seq<PoolTask>, t: PoolTask, rest: seq<PoolTask>)
    requires i < |calls| && Continues(calls, i, first, created, taken, [t] + rest) && calls[i].TakeCall?
    ensures Continues(calls, i + 1, first, created, taken + [t], rest)
  {
    assert calls[i..][1..] == calls[i + 1..];
    assert taken + [t] + rest == taken + ([t] + rest);
  }

  lemma ContinuesNothing(calls: seq<QueueCall>, i: nat, first: seq<PoolTask>,
                         created: seq<PoolTask>, taken: seq<PoolTask>)
    requires i < |calls| && Continues(calls, i, first, created, taken, []) && calls[i].TakeCall?
    ensures Continues(calls, i + 1, first, created, taken, [])
  {
    assert calls[i..][1..] == calls[i + 1..];
  }

  /** Whatever the order of the calls, and however often the queue runs empty in between
      and leaves tail stale, the tasks taken are the first ones queued, the rest is still
      queued, and a call of an empty queue takes nothing. */
  method ReplayQueue(pool: Pool, calls: seq<QueueCall>) returns (created: seq<PoolTask>, taken: seq<PoolTask>)
    requires pool.Valid() && pool.state == ACTIVE
    modifies pool`head, pool`tail, pool`queue, pool.queue`next
    ensures pool.Valid()
    ensures ArgumentsOf(created) == Arguments(calls)
    ensures |taken| == Served(|old(pool.queue)|, calls)
    ensures old(pool.queue) + created == taken + pool.queue
  {
    ghost var first := pool.queue;
    created, taken := [], [];
    assert calls[0..] == calls;
    var i := 0;
    while i < |calls|
      invariant 0 <= i <= |calls| && pool.Valid() && Continues(calls, i, first, created, taken, pool.queue)
      invariant pool.queue == [] || pool.queue[|pool.queue| - 1] in first || fresh(pool.queue[|pool.queue| - 1])
    {
      ghost var before := pool.queue;
      var t := Perform(pool, calls[i]);
      if calls[i].CreateCall? {
        ContinuesCreate(calls, i, first, created, taken, before, t);
        created := created + [t];
      } else if t != null {
        ContinuesTake(calls, i, first, created, taken, t, pool.queue);
        taken := taken + [t];
      } else {
        ContinuesNothing(calls, i, first, created, taken);
      }
      i := i + 1;
    }
  }
}
