/** The connection slots of the event loop and the worker pool behind them. */
module SlotTable {
  import opened Options
  import opened ThreadPool

  datatype SlotState = EMPTY | INIT | RECV | PROC | SEND

  /** How far a response was sent, the descriptor it goes to and its bytes. */
  datatype PartialSend = PartialSend(index: nat, fd: int, buffer: Option<string>)

  /** One index of states, ufds, partial_filepaths and partial_sends; an unset
      descriptor is -1. */
  datatype Slot = Slot(state: SlotState, fd: int, path: string, send: PartialSend)

  /** The process runs, left because it was full, or stopped on a failed assertion. */
  datatype Status = RUNNING | EXITED | FAILED

  /** The slots, the open descriptors, those that nothing refers to any more, the files
      that workers hold open, and the pool. */
  datatype Server = Server(
    slots: seq<Slot>,
    open: set<int>,
    leaked: set<int>,
    reading: map<nat, int>,
    pool: Pool,
    status: Status)

  /** The constants of the server: MAX_CONNECTIONS, THREAD_POOL_SIZE, sizeof(char *), the
      listening socket, every descriptor that is open before the first connection, and
      the files. */
  datatype Setup = Setup(
    capacity: nat,
    workers: nat,
    pointerSize: nat,
    listener: int,
    reserved: set<int>,
    files: Files)
  {
    predicate Valid() {
      && capacity > 2 && workers > 0 && listener in reserved
      && forall f :: f in reserved ==> f >= 0
    }
  }

  const NO_SEND := PartialSend(0, 0, None)

  // ---------------------------------------------------------------------
  // The steps of the event loop
  // ---------------------------------------------------------------------

  /** The bytes before the first newline are appended to the path; the rest of the
      chunk is dropped. The second result says whether the newline was there. */
  function Absorb(path: string, bytes: string): (string, bool)
    decreases |bytes|
  {
    if bytes == [] then (path, false)
    else if bytes[0] == '\n' then (path, true)
    else Absorb(path + [bytes[0]], bytes[1..])
  }

  /** The first free slot from k on, or the number of slots. */
  function FirstEmpty(slots: seq<Slot>, k: nat): (r: nat)
    requires k <= |slots|
    ensures k <= r <= |slots|
    ensures forall j :: k <= j < r ==> !slots[j].state.EMPTY?
    ensures r < |slots| ==> slots[r].state.EMPTY?
    decreases |slots| - k
  {
    if k == |slots| || slots[k].state.EMPTY? then k else FirstEmpty(slots, k + 1)
  }

  /** The first slot from y on with a descriptor, or the number of slots. */
  function FirstWith(slots: seq<Slot>, fd: int, y: nat): (r: nat)
    requires y <= |slots|
    ensures y <= r <= |slots|
    ensures forall j :: y <= j < r ==> slots[j].fd != fd
    ensures r < |slots| ==> slots[r].fd == fd
    decreases |slots| - y
  {
    if y == |slots| || slots[y].fd == fd then y else FirstWith(slots, fd, y + 1)
  }

  function Released(s: Slot): Slot {
    s.(state := EMPTY, fd := -1)
  }

  /** A connection is accepted as newFd. */
  function AcceptConnection(s: Server, newFd: int): Server
    requires |s.slots| >= 2
  {
    var k := FirstEmpty(s.slots, 2);
    if k == |s.slots| then s.(status := EXITED)
    else s.(slots := s.slots[k := s.slots[k].(state := INIT, fd := newFd, path := "")], open := s.open + {newFd})
  }

  /** A chunk arrives at slot i. */
  function Receive(s: Server, i: nat, bytes: string): Server
    requires i < |s.slots|
  {
    var slot := s.slots[i];
    var (path, complete) := Absorb(slot.path, bytes);
    if complete then
      s.(slots := s.slots[i := slot.(state := PROC, path := path)], pool := QueueTask(s.pool, Task(slot.fd, path)))
    else s.(slots := s.slots[i := slot.(path := path)])
  }

  /** One send call returned `sent`. It was given the size of the pointer, not that of the
      file, so it returns no more than that. A negative count is retried later. The advanced
      index is a local copy and always reaches `sent`, so one success closes the slot. */
  function SendResponse(s: Server, i: nat, sent: int): Server
    requires i < |s.slots|
  {
    var slot := s.slots[i];
    if sent >= 0 && slot.send.index + sent >= sent then
      s.(slots := s.slots[i := Released(slot)], open := s.open - {slot.send.fd})
    else s
  }

  function Promoted(s: Slot): Slot {
    if s.state.INIT? then s.(state := RECV) else s
  }

  /** After the events, every INIT slot but the listener's starts receiving. */
  function PromoteSlots(slots: seq<Slot>): (r: seq<Slot>)
    ensures |r| == |slots|
    ensures forall i :: 0 <= i < |r| ==> r[i] == if i == 0 then slots[i] else Promoted(slots[i])
  {
    seq(|slots|, (i: nat) requires i < |slots| => if i == 0 then slots[i] else Promoted(slots[i]))
  }

  /** The front result goes to the first slot with its descriptor. */
  function Dispatch(s: Server): Server
    requires s.pool.results != []
  {
    var r := s.pool.results[0];
    var t := s.(pool := s.pool.(results := s.pool.results[1..]));
    var i := FirstWith(s.slots, r.fd, 0);
    if r.fd <= 0 || i == |s.slots| then t.(status := FAILED)
    else if r.buffer.None? then
      t.(slots := s.slots[i := Released(s.slots[i])], open := s.open - {r.fd})
    else
      t.(slots := s.slots[i := s.slots[i].(state := SEND, send := PartialSend(0, r.fd, r.buffer))])
  }

  datatype Step =
    | Accept(newFd: int)
    | AcceptFails(newFd: int)
    | Arrives(i: nat, bytes: string)
    | Sends(i: nat, sent: int)
    | Promote
    | DispatchOne
    | OpensFile(w: nat, newFd: int)
    | ClosesFile(w: nat)
    | PoolStep(act: PoolAction)

  /** The event loop may take its steps in any order. A new descriptor is one that is
      not open. Only the event loop queues tasks. A worker may open and close the file of
      its task while it is busy, and delivers after it has closed it. */
  predicate StepEnabled(c: Setup, s: Server, act: Step) {
    && s.status == RUNNING
    && |s.slots| >= 2
    && match act
       case Accept(f) => f >= 0 && f !in s.open
       case AcceptFails(f) => f >= 0 && f !in s.open
       case Arrives(i, _) => 1 <= i < |s.slots| && s.slots[i].state.RECV?
       case Sends(i, sent) =>
         1 <= i < |s.slots| && s.slots[i].state.SEND? && sent <= c.pointerSize - s.slots[i].send.index
       case Promote => true
       case DispatchOne => s.pool.results != []
       case OpensFile(w, f) =>
         f >= 0 && f !in s.open && w < |s.pool.workers| && s.pool.workers[w].Busy? && w !in s.reading
       case ClosesFile(w) => w in s.reading
       case PoolStep(a) => !a.Queue? && !a.Collect? && PoolEnabled(s.pool, a) && (a.Deliver? ==> a.w !in s.reading)
  }

  function StepApply(c: Setup, s: Server, act: Step): Server
    requires StepEnabled(c, s, act)
  {
    match act
    case Accept(f) => AcceptConnection(s, f)
    case AcceptFails(f) => s.(open := s.open + {f}, leaked := s.leaked + {f})
    case Arrives(i, bytes) => Receive(s, i, bytes)
    case Sends(i, sent) => SendResponse(s, i, sent)
    case Promote => s.(slots := PromoteSlots(s.slots))
    case DispatchOne => Dispatch(s)
    case OpensFile(w, f) => s.(open := s.open + {f}, reading := s.reading[w := f])
    case ClosesFile(w) => s.(open := s.open - {s.reading[w]}, reading := s.reading - {w})
    case PoolStep(a) => s.(pool := PoolApply(c.files, s.pool, a))
  }

  function InitSlot(c: Setup, i: nat): Slot {
    Slot(EMPTY, if i == 0 then c.listener else -1, "", NO_SEND)
  }

  function InitServer(c: Setup): Server {
    Server(seq(c.capacity, (i: nat) => InitSlot(c, i)), c.reserved, {}, map[],
           Pool([], seq(c.workers, (w: nat) => Looking), []), RUNNING)
  }

  datatype Trace = Begin | Next(before: Trace, act: Step)

  ghost predicate TraceValid(c: Setup, r: Trace)
    decreases r, 0
  {
    match r
    case Begin => true
    case Next(before, act) => TraceValid(c, before) && StepEnabled(c, Reached(c, before), act)
  }

  ghost function Reached(c: Setup, r: Trace): Server
    requires TraceValid(c, r)
    decreases r, 1
  {
    match r
    case Begin => InitServer(c)
    case Next(before, act) => StepApply(c, Reached(c, before), act)
  }

  // ---------------------------------------------------------------------
  // Counting descriptors
  // ---------------------------------------------------------------------

  function Bit(b: bool): nat {
    if b then 1 else 0
  }

  /** How often f selects v from the elements of s. */
  function Tally<T>(s: seq<T>, f: T -> Option<int>, v: int): nat {
    if s == [] then 0 else Bit(f(s[0]) == Some(v)) + Tally(s[1..], f, v)
  }

  lemma {:induction false} TallyConcat<T>(a: seq<T>, b: seq<T>, f: T -> Option<int>, v: int)
    ensures Tally(a + b, f, v) == Tally(a, f, v) + Tally(b, f, v)
  {
    if a == [] {
      assert a + b == b;
    } else {
      TallyConcat(a[1..], b, f, v);
      assert (a + b)[1..] == a[1..] + b;
    }
  }

  lemma {:induction false} TallyUpdate<T>(s: seq<T>, i: nat, x: T, f: T -> Option<int>, v: int)
    requires i < |s|
    ensures Tally(s[i := x], f, v) + Bit(f(s[i]) == Some(v)) == Tally(s, f, v) + Bit(f(x) == Some(v))
  {
    if i > 0 {
      TallyUpdate(s[1..], i - 1, x, f, v);
      assert s[i := x][1..] == s[1..][i - 1 := x];
    } else {
      assert s[i := x][1..] == s[1..];
    }
  }

  lemma {:induction false} TallySame<T>(a: seq<T>, b: seq<T>, f: T -> Option<int>, v: int)
    requires |a| == |b| && forall i :: 0 <= i < |a| ==> f(a[i]) == f(b[i])
    ensures Tally(a, f, v) == Tally(b, f, v)
  {
    if a != [] {
      TallySame(a[1..], b[1..], f, v);
    }
  }

  lemma {:induction false} TallyZero<T>(s: seq<T>, f: T -> Option<int>, v: int)
    ensures Tally(s, f, v) == 0 <==> forall i :: 0 <= i < |s| ==> f(s[i]) != Some(v)
  {
    if s != [] {
      TallyZero(s[1..], f, v);
      if i :| 0 <= i < |s| && f(s[i]) == Some(v) {
        assert i == 0 || f(s[1..][i - 1]) == Some(v);
      }
    }
  }

  lemma {:induction false} TallyOnce<T>(s: seq<T>, f: T -> Option<int>, v: int)
    requires forall i, j :: 0 <= i < j < |s| && f(s[i]).Some? ==> f(s[i]) != f(s[j])
    ensures Tally(s, f, v) <= 1
  {
    if s != [] {
      TallyOnce(s[1..], f, v);
      TallyZero(s[1..], f, v);
    }
  }

  function TaskFd(t: Task): Option<int> {
    Some(t.fd)
  }

  function WorkerFd(w: Worker): Option<int> {
    if w.Busy? then Some(w.task.fd) else None
  }

  function ResultFd(r: Result): Option<int> {
    Some(r.fd)
  }

  function ProcFd(s: Slot): Option<int> {
    if s.state.PROC? then Some(s.fd) else None
  }

  /** How often an identifier is queued, held by a worker or delivered. */
  function InFlight(p: Pool, v: int): nat {
    Tally(p.tasks, TaskFd, v) + Tally(p.workers, WorkerFd, v) + Tally(p.results, ResultFd, v)
  }

  /** How many slots wait for the pool with descriptor v. */
  function Processing(slots: seq<Slot>, v: int): nat {
    Tally(slots, ProcFd, v)
  }
}
