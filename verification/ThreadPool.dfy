/** The worker pool: a task queue, a result queue and threads that sleep on a condition. */
module ThreadPool {
  import opened Options

  /** A request identifier (a file descriptor) and the path it asks for. */
  datatype Task = Task(fd: int, path: string)

  /** A request identifier and the bytes read for it; None when the file does not open. */
  datatype Result = Result(fd: int, buffer: Option<string>)

  /** Where a worker is between two critical sections: about to look for work, waiting
      on the condition variable, or reading the file of what it took. */
  datatype Worker = Looking | Sleeping(notified: bool) | Busy(task: Task)

  datatype Pool = Pool(tasks: seq<Task>, workers: seq<Worker>, results: seq<Result>)

  /** What each path holds; a path that is missing does not open. */
  type Files = map<string, string>

  function ReadFile(files: Files, path: string): Option<string> {
    if path in files then Some(files[path]) else None
  }

  function NotifyAll(workers: seq<Worker>): (r: seq<Worker>)
    ensures |r| == |workers|
    ensures forall w :: 0 <= w < |r| ==> r[w] == (if workers[w].Sleeping? then Sleeping(true) else workers[w])
  {
    seq(|workers|, (w: nat) requires w < |workers| => if workers[w].Sleeping? then Sleeping(true) else workers[w])
  }

  /** queue_task: push and broadcast under task_queue_mutex. */
  function QueueTask(p: Pool, t: Task): Pool {
    p.(tasks := p.tasks + [t], workers := NotifyAll(p.workers))
  }

  /** Under task_queue_mutex a worker takes the front task, or has nothing to take. */
  function Dequeue(p: Pool, w: nat, otherwise: Worker): Pool
    requires w < |p.workers|
  {
    if p.tasks != [] then p.(tasks := p.tasks[1..], workers := p.workers[w := Busy(p.tasks[0])])
    else p.(workers := p.workers[w := otherwise])
  }

  datatype PoolAction =
    | Queue(t: Task)
    | Look(w: nat)
    | Wake(w: nat)
    | Spurious(w: nat)
    | Deliver(w: nat)
    | Collect

  predicate PoolEnabled(p: Pool, act: PoolAction) {
    match act
    case Queue(_) => true
    case Look(w) => w < |p.workers| && p.workers[w].Looking?
    case Wake(w) => w < |p.workers| && p.workers[w] == Sleeping(true)
    case Spurious(w) => w < |p.workers| && p.workers[w] == Sleeping(false)
    case Deliver(w) => w < |p.workers| && p.workers[w].Busy?
    case Collect => p.results != []
  }

  /** The critical sections of worker_thread, of the producers and of whoever takes the
      results, in any interleaving.
      A look that finds nothing goes to sleep in the same critical section; a woken
      worker that finds nothing starts over. */
  function PoolApply(files: Files, p: Pool, act: PoolAction): Pool
    requires PoolEnabled(p, act)
  {
    match act
    case Queue(t) => QueueTask(p, t)
    case Look(w) => Dequeue(p, w, Sleeping(false))
    case Wake(w) => Dequeue(p, w, Looking)
    case Spurious(w) => p.(workers := p.workers[w := Sleeping(true)])
    case Deliver(w) =>
      var t := p.workers[w].task;
      p.(results := p.results + [Result(t.fd, ReadFile(files, t.path))], workers := p.workers[w := Looking])
    case Collect => p.(results := p.results[1..])
  }

  datatype PoolRun = PoolStart(workers: nat) | PoolThen(before: PoolRun, act: PoolAction)

  ghost predicate PoolValid(files: Files, r: PoolRun)
    decreases r, 0
  {
    match r
    case PoolStart(_) => true
    case PoolThen(before, act) => PoolValid(files, before) && PoolEnabled(PoolFinal(files, before), act)
  }

  ghost function PoolFinal(files: Files, r: PoolRun): Pool
    requires PoolValid(files, r)
    decreases r, 1
  {
    match r
    case PoolStart(n) => Pool([], seq(n, (w: nat) => Looking), [])
    case PoolThen(before, act) => PoolApply(files, PoolFinal(files, before), act)
  }

  /** A worker that sleeps without having been notified has nothing to do. */
  predicate NoLostWakeup(p: Pool) {
    forall w :: 0 <= w < |p.workers| && p.workers[w] == Sleeping(false) ==> p.tasks == []
  }

  /** No lost wakeup, for any number of workers and producers: in every run, while some
      worker sleeps without a notification no task is queued. */
  lemma {:induction false} WakeupsAreNotLost(files: Files, r: PoolRun)
    requires PoolValid(files, r)
    ensures NoLostWakeup(PoolFinal(files, r))
  {
    match r
    case PoolStart(_) =>
    case PoolThen(before, act) =>
      WakeupsAreNotLost(files, before);
  }

  // ---------------------------------------------------------------------
  // First come, first served
  // ---------------------------------------------------------------------

  /** Every task that was queued, in order. */
  function Queued(r: PoolRun): seq<Task> {
    match r
    case PoolStart(_) => []
    case PoolThen(before, act) => Queued(before) + (if act.Queue? then [act.t] else [])
  }

  /** The worker that a step is a step of. */
  function Actor(act: PoolAction): Option<nat> {
    match act
    case Look(w) => Some(w)
    case Wake(w) => Some(w)
    case Spurious(w) => Some(w)
    case Deliver(w) => Some(w)
    case Queue(_) => None
    case Collect => None
  }

  /** Worker w is busy after the step and was not before it. */
  predicate TakesUp(p: Pool, q: Pool, w: Option<nat>) {
    && w.Some? && w.value < |p.workers| && w.value < |q.workers|
    && !p.workers[w.value].Busy? && q.workers[w.value].Busy?
  }

  /** Every task that some worker took, in order, as the workers' states show it. */
  ghost function Taken(files: Files, r: PoolRun): seq<Task>
    requires PoolValid(files, r)
  {
    match r
    case PoolStart(_) => []
    case PoolThen(before, act) =>
      var p, q := PoolFinal(files, before), PoolFinal(files, r);
      Taken(files, before) + (if TakesUp(p, q, Actor(act)) then [q.workers[Actor(act).value].task] else [])
  }

  lemma QueueStep(files: Files, p: Pool, act: PoolAction)
    requires PoolEnabled(p, act)
    ensures var q := PoolApply(files, p, act);
      p.tasks + (if act.Queue? then [act.t] else [])
      == (if TakesUp(p, q, Actor(act)) then [q.workers[Actor(act).value].task] else []) + q.tasks
  {
  }

  /** A queue: what came in is what went out and what is still there. */
  lemma QueueGrows<T>(came: seq<T>, went: seq<T>, here: seq<T>, comes: seq<T>, goes: seq<T>, left: seq<T>)
    requires came == went + here && here + comes == goes + left
    ensures came + comes == (went + goes) + left
  {
    assert came + comes == went + (here + comes) == went + (goes + left);
  }

  /** Tasks are served in the order in which they were queued, each of them once: what
      was queued is what was taken followed by what still waits. */
  lemma {:induction false} TasksAreServedInOrder(files: Files, r: PoolRun)
    requires PoolValid(files, r)
    ensures Queued(r) == Taken(files, r) + PoolFinal(files, r).tasks
  {
    match r
    case PoolStart(_) =>
    case PoolThen(before, act) =>
      TasksAreServedInOrder(files, before);
      var p, q := PoolFinal(files, before), PoolFinal(files, r);
      QueueStep(files, p, act);
      QueueGrows(Queued(before), Taken(files, before), p.tasks, if act.Queue? then [act.t] else [],
                 if TakesUp(p, q, Actor(act)) then [q.workers[Actor(act).value].task] else [], q.tasks);
  }

  /** Every result that was delivered, in order: what reading the file of the finished
      task gives. */
  ghost function Delivered(files: Files, r: PoolRun): seq<Result>
    requires PoolValid(files, r)
  {
    match r
    case PoolStart(_) => []
    case PoolThen(before, act) =>
      Delivered(files, before)
      + (if act.Deliver?
         then [Answer(files, PoolFinal(files, before).workers[act.w].task)] else [])
  }

  function Answer(files: Files, t: Task): Result {
    Result(t.fd, if t.path in files then Some(files[t.path]) else None)
  }

  /** Every result that was taken from the front of the queue, in order. */
  ghost function Collected(files: Files, r: PoolRun): seq<Result>
    requires PoolValid(files, r)
  {
    match r
    case PoolStart(_) => []
    case PoolThen(before, act) =>
      Collected(files, before) + (if act.Collect? then [PoolFinal(files, before).results[0]] else [])
  }

  lemma ResultStep(files: Files, p: Pool, act: PoolAction)
    requires PoolEnabled(p, act)
    ensures p.results + (if act.Deliver? then [Answer(files, p.workers[act.w].task)] else [])
         == (if act.Collect? then [p.results[0]] else []) + PoolApply(files, p, act).results
  {
  }

  /** Results are handed over in the order of their delivery, each of them once. */
  lemma {:induction false} ResultsAreServedInOrder(files: Files, r: PoolRun)
    requires PoolValid(files, r)
    ensures Delivered(files, r) == Collected(files, r) + PoolFinal(files, r).results
  {
    match r
    case PoolStart(_) =>
    case PoolThen(before, act) =>
      ResultsAreServedInOrder(files, before);
      var p := PoolFinal(files, before);
      ResultStep(files, p, act);
      QueueGrows(Delivered(files, before), Collected(files, before), p.results,
                 if act.Deliver? then [Answer(files, p.workers[act.w].task)] else [],
                 if act.Collect? then [p.results[0]] else [], PoolFinal(files, r).results);
  }

  /** When a worker changes what it does, and to what: it takes the front task when it
      looks or wakes and there is one, falls asleep when it looks and there is none,
      starts over when it wakes and there is none, and is notified by a new task or
      spuriously. */
  lemma WorkersChangeExactlyWhen(files: Files, p: Pool, act: PoolAction, v: nat)
    requires PoolEnabled(p, act) && v < |p.workers|
    ensures var q := PoolApply(files, p, act);
      && |q.workers| == |p.workers|
      && var a, b := p.workers[v], q.workers[v];
      && (b.Busy? && b != a <==> (act == Look(v) || act == Wake(v)) && p.tasks != [])
      && (b.Busy? && b != a ==> b.task == p.tasks[0])
      && (b == Sleeping(false) && b != a <==> act == Look(v) && p.tasks == [])
      && (b == Sleeping(true) && b != a <==> a == Sleeping(false) && (act.Queue? || act == Spurious(v)))
      && (b == Looking && b != a <==> act == Deliver(v) || (act == Wake(v) && p.tasks == []))
  {
  }

  /** The shared state of the pool and the methods that change it under its mutexes. */
  class ThreadPoolQueues {
    var taskQueue: seq<Task>
    var resultQueue: seq<Result>
    var workers: seq<Worker>

    function State(): Pool
      reads this
    {
      Pool(taskQueue, workers, resultQueue)
    }

    constructor (n: nat)
      ensures State() == Pool([], seq(n, (w: nat) => Looking), [])
    {
      taskQueue, resultQueue := [], [];
      workers := seq(n, (w: nat) => Looking);
    }

    /** pthread_cond_broadcast on task_cond_var. */
    method Broadcast()
      modifies this`workers
      ensures workers == NotifyAll(old(workers))
    {
      var w := 0;
      while w < |workers|
        invariant 0 <= w <= |workers| == |old(workers)|
        invariant forall v :: 0 <= v < w ==> workers[v] == NotifyAll(old(workers))[v]
        invariant forall v :: w <= v < |workers| ==> workers[v] == old(workers)[v]
      {
        if workers[w].Sleeping? {
          workers := workers[w := Sleeping(true)];
        }
        w := w + 1;
      }
    }

    method QueueOne(t: Task)
      modifies this
      ensures State() == QueueTask(old(State()), t)
    {
      taskQueue := taskQueue + [t];
      Broadcast();
    }

    /** dequeue_task; throws on an empty queue. */
    method DequeueTask() returns (t: Option<Task>)
      modifies this`taskQueue
      ensures old(taskQueue) == [] ==> t == None && taskQueue == []
      ensures old(taskQueue) != [] ==> t == Some(old(taskQueue)[0]) && taskQueue == old(taskQueue)[1..]
    {
      if taskQueue == [] {
        return None;
      }
      t := Some(taskQueue[0]);
      taskQueue := taskQueue[1..];
    }

    /** The first critical section of worker_thread: take a task or go to sleep. */
    method LookForWork(w: nat)
      requires w < |workers| && workers[w].Looking?
      modifies this
      ensures State() == PoolApply(map[], old(State()), Look(w))
    {
      var t := DequeueTask();
      workers := workers[w := if t.Some? then Busy(t.value) else Sleeping(false)];
    }

    /** The return from pthread_cond_wait. */
    method WakeUp(w: nat)
      requires w < |workers| && workers[w] == Sleeping(true)
      modifies this
      ensures State() == PoolApply(map[], old(State()), Wake(w))
    {
      var t := DequeueTask();
      workers := workers[w := if t.Some? then Busy(t.value) else Looking];
    }

    /** Reads the file of the taken task and queues the result. */
    method QueueResult(files: Files, w: nat)
      requires w < |workers| && workers[w].Busy?
      modifies this
      ensures State() == PoolApply(files, old(State()), Deliver(w))
    {
      var t := workers[w].task;
      resultQueue := resultQueue + [Result(t.fd, ReadFile(files, t.path))];
      workers := workers[w := Looking];
    }

    /** dequeue_result, called only while there is one. */
    method DequeueResult() returns (r: Result)
      requires resultQueue != []
      modifies this`resultQueue
      ensures r == old(resultQueue)[0] && State() == PoolApply(map[], old(State()), Collect)
    {
      r := resultQueue[0];
      resultQueue := resultQueue[1..];
    }
  }
}
