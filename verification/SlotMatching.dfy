/** Slots that wait for the pool and work in the pool match one to one, in every run. */
module SlotMatching {
  import opened Options
  import opened ThreadPool
  import opened SlotTable

  predicate Live(s: Slot) {
    !s.state.EMPTY?
  }

  /** Live slots have descriptors of their own; slots 0 and 1 are never used. */
  ghost predicate Table(c: Setup, s: Server) {
    && |s.slots| == c.capacity > 2
    && !Live(s.slots[0]) && s.slots[0].fd == c.listener
    && !Live(s.slots[1])
    && (forall i :: 1 <= i < |s.slots| && !Live(s.slots[i]) ==> s.slots[i].fd == -1)
    && (forall i :: 0 <= i < |s.slots| && Live(s.slots[i]) ==>
          s.slots[i].fd >= 0 && s.slots[i].fd in s.open && s.slots[i].fd !in c.reserved + s.leaked)
    && (forall i, j :: 0 <= i < j < |s.slots| && Live(s.slots[i]) && Live(s.slots[j]) ==>
        s.slots[i].fd != s.slots[j].fd)
    && c.reserved + s.leaked <= s.open
  }

  /** The files that workers hold open have descriptors of their own. */
  ghost predicate FilesHeld(c: Setup, s: Server) {
    && (forall w :: w in s.reading ==> s.reading[w] in s.open && s.reading[w] !in c.reserved + s.leaked)
    && (forall v, w :: v in s.reading && w in s.reading && v != w ==> s.reading[v] != s.reading[w])
    && (forall w, i :: w in s.reading && 0 <= i < |s.slots| && Live(s.slots[i]) ==> s.reading[w] != s.slots[i].fd)
  }

  /** A slot that sends has its own descriptor and the bytes of the file it asked for. */
  ghost predicate Sending(c: Setup, s: Server) {
    forall i :: 0 <= i < |s.slots| && s.slots[i].state.SEND? ==>
      && s.slots[i].send.fd == s.slots[i].fd && s.slots[i].send.index == 0
      && s.slots[i].send.buffer == ReadFile(c.files, s.slots[i].path)
      && s.slots[i].path in c.files
  }

  predicate Owns(s: Slot, f: int) {
    Live(s) && s.fd == f
  }

  /** Some worker holds descriptor f open. */
  ghost predicate IsRead(reading: map<nat, int>, f: int) {
    exists w :: w in reading && reading[w] == f
  }

  /** Every open descriptor is reserved, leaked, held by a worker or that of a live slot. */
  ghost predicate Accounted(c: Setup, s: Server) {
    forall f :: f in s.open && f !in c.reserved && f !in s.leaked && !IsRead(s.reading, f) ==>
      exists i :: 0 <= i < |s.slots| && Owns(s.slots[i], f)
  }

  ghost predicate Matched(s: Server) {
    forall v :: InFlight(s.pool, v) == Processing(s.slots, v)
  }

  /** What the pool holds for fd is for the file that the waiting slot asked for. */
  predicate Answers(c: Setup, slots: seq<Slot>, fd: int, buffer: Option<string>) {
    forall i :: 0 <= i < |slots| && slots[i].state.PROC? && slots[i].fd == fd ==>
      ReadFile(c.files, slots[i].path) == buffer
  }

  ghost predicate Faithful(c: Setup, s: Server) {
    && (forall k :: 0 <= k < |s.pool.tasks| ==>
          Answers(c, s.slots, s.pool.tasks[k].fd, ReadFile(c.files, s.pool.tasks[k].path)))
    && (forall w :: 0 <= w < |s.pool.workers| && s.pool.workers[w].Busy? ==>
          Answers(c, s.slots, s.pool.workers[w].task.fd, ReadFile(c.files, s.pool.workers[w].task.path)))
    && (forall k :: 0 <= k < |s.pool.results| ==>
          Answers(c, s.slots, s.pool.results[k].fd, s.pool.results[k].buffer))
  }

  ghost predicate ServerInv(c: Setup, s: Server) {
    && Table(c, s) && Sending(c, s) && FilesHeld(c, s) && Accounted(c, s)
    && Matched(s) && Faithful(c, s) && NoLostWakeup(s.pool)
  }

  // ---------------------------------------------------------------------
  // The pool side
  // ---------------------------------------------------------------------

  lemma DequeueKeepsWork(p: Pool, w: nat, otherwise: Worker, v: int)
    requires w < |p.workers| && !p.workers[w].Busy? && !otherwise.Busy?
    ensures InFlight(Dequeue(p, w, otherwise), v) == InFlight(p, v)
  {
    TallyUpdate(p.workers, w, if p.tasks != [] then Busy(p.tasks[0]) else otherwise, WorkerFd, v);
  }

  lemma DeliverKeepsWork(files: Files, p: Pool, w: nat, v: int)
    requires w < |p.workers| && p.workers[w].Busy?
    ensures InFlight(PoolApply(files, p, Deliver(w)), v) == InFlight(p, v)
  {
    var t := p.workers[w].task;
    TallyUpdate(p.workers, w, Looking, WorkerFd, v);
    TallyConcat(p.results, [Result(t.fd, ReadFile(files, t.path))], ResultFd, v);
  }

  /** No step of a worker loses, invents or duplicates an identifier. */
  lemma WorkersConserve(files: Files, p: Pool, act: PoolAction, v: int)
    requires PoolEnabled(p, act) && !act.Queue? && !act.Collect?
    ensures InFlight(PoolApply(files, p, act), v) == InFlight(p, v)
  {
    match act
    case Look(w) => DequeueKeepsWork(p, w, Sleeping(false), v);
    case Wake(w) => DequeueKeepsWork(p, w, Looking, v);
    case Spurious(w) => TallyUpdate(p.workers, w, Sleeping(true), WorkerFd, v);
    case Deliver(w) => DeliverKeepsWork(files, p, w, v);
  }

  lemma QueueingAdds(p: Pool, t: Task, v: int)
    ensures InFlight(QueueTask(p, t), v) == InFlight(p, v) + Bit(t.fd == v)
  {
    TallyConcat(p.tasks, [t], TaskFd, v);
    TallySame(NotifyAll(p.workers), p.workers, WorkerFd, v);
  }

  lemma WorkersStayFaithful(c: Setup, s: Server, act: PoolAction)
    requires Faithful(c, s) && PoolEnabled(s.pool, act) && !act.Queue? && !act.Collect?
    ensures Faithful(c, s.(pool := PoolApply(c.files, s.pool, act)))
  {
  }

  lemma PoolStepKeeps(c: Setup, s: Server, act: PoolAction)
    requires ServerInv(c, s) && StepEnabled(c, s, PoolStep(act))
    ensures ServerInv(c, StepApply(c, s, PoolStep(act)))
  {
    var t := s.(pool := PoolApply(c.files, s.pool, act));
    forall v ensures InFlight(t.pool, v) == Processing(t.slots, v) { WorkersConserve(c.files, s.pool, act, v); }
    WorkersStayFaithful(c, s, act);
  }

  // ---------------------------------------------------------------------
  // The slot side
  // ---------------------------------------------------------------------

  predicate WaitsFor(s: Slot, f: int) {
    s.state.PROC? && s.fd == f
  }

  /** Identifiers in flight are those of waiting slots, each of them once. */
  lemma FlightIsProc(c: Setup, s: Server, f: int)
    requires Table(c, s) && Matched(s)
    ensures InFlight(s.pool, f) == Bit(exists i :: 0 <= i < |s.slots| && WaitsFor(s.slots[i], f))
  {
    TallyOnce(s.slots, ProcFd, f);
    TallyZero(s.slots, ProcFd, f);
    assert InFlight(s.pool, f) == Processing(s.slots, f);
    if i :| 0 <= i < |s.slots| && WaitsFor(s.slots[i], f) {
      assert ProcFd(s.slots[i]) == Some(f);
    }
    if i :| 0 <= i < |s.slots| && ProcFd(s.slots[i]) == Some(f) {
      assert WaitsFor(s.slots[i], f);
    }
  }

  lemma NotInFlight(p: Pool, f: int)
    requires InFlight(p, f) == 0
    ensures forall k :: 0 <= k < |p.tasks| ==> p.tasks[k].fd != f
    ensures forall w :: 0 <= w < |p.workers| && p.workers[w].Busy? ==> p.workers[w].task.fd != f
    ensures forall k :: 0 <= k < |p.results| ==> p.results[k].fd != f
  {
    TallyZero(p.tasks, TaskFd, f);
    TallyZero(p.workers, WorkerFd, f);
    TallyZero(p.results, ResultFd, f);
    assert forall k :: 0 <= k < |p.tasks| ==> TaskFd(p.tasks[k]) != Some(f);
    assert forall w :: 0 <= w < |p.workers| ==> WorkerFd(p.workers[w]) != Some(f);
    assert forall k :: 0 <= k < |p.results| ==> ResultFd(p.results[k]) != Some(f);
  }

  /** Slot i changes to x: it keeps its descriptor, takes a new one or gives it up. */
  ghost predicate Changes(c: Setup, s: Server, t: Server, i: nat, x: Slot) {
    && 2 <= i < |s.slots| && t.slots == s.slots[i := x]
    && t.leaked == s.leaked && t.reading == s.reading
    && var was := s.slots[i];
    || (Live(was) && Live(x) && x.fd == was.fd && t.open == s.open)
    || (!Live(was) && Live(x) && x.fd >= 0 && x.fd !in s.open && t.open == s.open + {x.fd})
    || (Live(was) && !Live(x) && x.fd == -1 && t.open == s.open - {was.fd})
  }

  lemma TableChange(c: Setup, s: Server, t: Server, i: nat, x: Slot)
    requires Table(c, s) && Changes(c, s, t, i, x)
    ensures Table(c, t)
  {
  }

  lemma FilesChange(c: Setup, s: Server, t: Server, i: nat, x: Slot)
    requires Table(c, s) && FilesHeld(c, s) && Changes(c, s, t, i, x)
    ensures FilesHeld(c, t)
  {
  }

  lemma AccountedChange(c: Setup, s: Server, t: Server, i: nat, x: Slot)
    requires Accounted(c, s) && Changes(c, s, t, i, x)
    ensures Accounted(c, t)
  {
    forall f | f in t.open && f !in c.reserved && f !in t.leaked && !IsRead(t.reading, f)
      ensures exists j :: 0 <= j < |t.slots| && Owns(t.slots[j], f)
    {
      if Owns(x, f) {
        assert Owns(t.slots[i], f);
      } else {
        var j :| 0 <= j < |s.slots| && Owns(s.slots[j], f);
        assert Owns(t.slots[j], f);
      }
    }
  }

  lemma FaithfulChange(c: Setup, s: Server, t: Server, i: nat, x: Slot)
    requires Faithful(c, s) && Changes(c, s, t, i, x) && !x.state.PROC?
    requires t.pool == s.pool || (s.pool.results != [] && t.pool == s.pool.(results := s.pool.results[1..]))
    ensures Faithful(c, t)
  {
    assert forall f, b :: Answers(c, s.slots, f, b) ==> Answers(c, t.slots, f, b);
  }

  lemma MatchedChange(c: Setup, s: Server, t: Server, i: nat, x: Slot)
    requires Matched(s) && Changes(c, s, t, i, x) && !x.state.PROC? && !s.slots[i].state.PROC? && t.pool == s.pool
    ensures Matched(t)
  {
    forall v ensures InFlight(t.pool, v) == Processing(t.slots, v) { TallyUpdate(s.slots, i, x, ProcFd, v); }
  }

  lemma AcceptKeeps(c: Setup, s: Server, newFd: int)
    requires ServerInv(c, s) && StepEnabled(c, s, Accept(newFd))
    ensures ServerInv(c, AcceptConnection(s, newFd))
  {
    var k := FirstEmpty(s.slots, 2);
    var t := AcceptConnection(s, newFd);
    if k < |s.slots| {
      TableChange(c, s, t, k, t.slots[k]);
      FilesChange(c, s, t, k, t.slots[k]);
      AccountedChange(c, s, t, k, t.slots[k]);
      FaithfulChange(c, s, t, k, t.slots[k]);
      MatchedChange(c, s, t, k, t.slots[k]);
    }
  }

  lemma AcceptFailsKeeps(c: Setup, s: Server, newFd: int)
    requires ServerInv(c, s) && StepEnabled(c, s, AcceptFails(newFd))
    ensures ServerInv(c, StepApply(c, s, AcceptFails(newFd)))
  {
    var t := StepApply(c, s, AcceptFails(newFd));
    forall f | f in t.open && f !in c.reserved && f !in t.leaked && !IsRead(t.reading, f)
      ensures exists j :: 0 <= j < |t.slots| && Owns(t.slots[j], f)
    {
      assert f in s.open && f !in s.leaked;
    }
  }

  lemma ReadMore(reading: map<nat, int>, w: nat, newFd: int, f: int)
    requires w !in reading
    ensures IsRead(reading[w := newFd], f) <==> IsRead(reading, f) || f == newFd
  {
    assert reading[w := newFd][w] == newFd;
    if v :| v in reading && reading[v] == f {
      assert v in reading[w := newFd] && reading[w := newFd][v] == f;
    }
  }

  lemma ReadLess(reading: map<nat, int>, w: nat, f: int)
    requires w in reading && f != reading[w]
    ensures IsRead(reading - {w}, f) <==> IsRead(reading, f)
  {
    if v :| v in reading && reading[v] == f {
      assert v in reading - {w} && (reading - {w})[v] == f;
    }
  }

  lemma OpenKeeps(c: Setup, s: Server, w: nat, newFd: int)
    requires ServerInv(c, s) && StepEnabled(c, s, OpensFile(w, newFd))
    ensures ServerInv(c, StepApply(c, s, OpensFile(w, newFd)))
  {
    var t := StepApply(c, s, OpensFile(w, newFd));
    forall f | f in t.open && f !in c.reserved && f !in t.leaked && !IsRead(t.reading, f)
      ensures exists j :: 0 <= j < |t.slots| && Owns(t.slots[j], f)
    {
      ReadMore(s.reading, w, newFd, f);
    }
  }

  lemma CloseKeeps(c: Setup, s: Server, w: nat)
    requires ServerInv(c, s) && StepEnabled(c, s, ClosesFile(w))
    ensures ServerInv(c, StepApply(c, s, ClosesFile(w)))
  {
    var t := StepApply(c, s, ClosesFile(w));
    forall f | f in t.open && f !in c.reserved && f !in t.leaked && !IsRead(t.reading, f)
      ensures exists j :: 0 <= j < |t.slots| && Owns(t.slots[j], f)
    {
      ReadLess(s.reading, w, f);
    }
  }

  /** A complete request queues one task, for the slot's own descriptor. */
  lemma RequestMatched(s: Server, i: nat, bytes: string)
    requires Matched(s) && i < |s.slots| && s.slots[i].state.RECV? && Absorb(s.slots[i].path, bytes).1
    ensures Matched(Receive(s, i, bytes))
  {
    var t := Receive(s, i, bytes);
    forall v
      ensures InFlight(t.pool, v) == Processing(t.slots, v)
    {
      TallyUpdate(s.slots, i, t.slots[i], ProcFd, v);
      QueueingAdds(s.pool, Task(s.slots[i].fd, t.slots[i].path), v);
    }
  }

  /** The task of a complete request is for the slot's own path, and nothing else in
      the pool carries its descriptor. */
  lemma RequestFaithful(c: Setup, s: Server, i: nat, bytes: string)
    requires Table(c, s) && Matched(s) && Faithful(c, s)
    requires StepEnabled(c, s, Arrives(i, bytes)) && Absorb(s.slots[i].path, bytes).1
    ensures Faithful(c, Receive(s, i, bytes))
  {
    var t := Receive(s, i, bytes);
    var fd, path := s.slots[i].fd, t.slots[i].path;
    assert Live(s.slots[i]);
    FlightIsProc(c, s, fd);
    NotInFlight(s.pool, fd);
    assert forall f, b :: f != fd && Answers(c, s.slots, f, b) ==> Answers(c, t.slots, f, b);
    assert Answers(c, t.slots, fd, ReadFile(c.files, path));
  }

  lemma ReceiveKeeps(c: Setup, s: Server, i: nat, bytes: string)
    requires ServerInv(c, s) && StepEnabled(c, s, Arrives(i, bytes))
    ensures ServerInv(c, Receive(s, i, bytes))
  {
    var t := Receive(s, i, bytes);
    TableChange(c, s, t, i, t.slots[i]);
    FilesChange(c, s, t, i, t.slots[i]);
    AccountedChange(c, s, t, i, t.slots[i]);
    if Absorb(s.slots[i].path, bytes).1 {
      RequestMatched(s, i, bytes);
      RequestFaithful(c, s, i, bytes);
    } else {
      FaithfulChange(c, s, t, i, t.slots[i]);
      MatchedChange(c, s, t, i, t.slots[i]);
    }
  }

  lemma SendKeeps(c: Setup, s: Server, i: nat, sent: int)
    requires ServerInv(c, s) && StepEnabled(c, s, Sends(i, sent))
    ensures ServerInv(c, SendResponse(s, i, sent))
  {
    var t := SendResponse(s, i, sent);
    if sent >= 0 {
      TableChange(c, s, t, i, t.slots[i]);
      FilesChange(c, s, t, i, t.slots[i]);
      AccountedChange(c, s, t, i, t.slots[i]);
      FaithfulChange(c, s, t, i, t.slots[i]);
      MatchedChange(c, s, t, i, t.slots[i]);
    }
  }

  lemma PromoteKeepsTable(c: Setup, s: Server)
    requires Table(c, s) && Sending(c, s)
    ensures Table(c, s.(slots := PromoteSlots(s.slots))) && Sending(c, s.(slots := PromoteSlots(s.slots)))
  {
  }

  lemma PromoteKeepsOwners(c: Setup, s: Server)
    requires Accounted(c, s) && FilesHeld(c, s)
    ensures Accounted(c, s.(slots := PromoteSlots(s.slots))) && FilesHeld(c, s.(slots := PromoteSlots(s.slots)))
  {
    var t := s.(slots := PromoteSlots(s.slots));
    forall f | f in t.open && f !in c.reserved && f !in t.leaked && !IsRead(t.reading, f)
      ensures exists j :: 0 <= j < |t.slots| && Owns(t.slots[j], f)
    {
      var j :| 0 <= j < |s.slots| && Owns(s.slots[j], f);
      assert Owns(t.slots[j], f);
    }
  }

  lemma PromoteKeepsWork(c: Setup, s: Server)
    requires Faithful(c, s) && Matched(s)
    ensures Faithful(c, s.(slots := PromoteSlots(s.slots))) && Matched(s.(slots := PromoteSlots(s.slots)))
  {
    var t := s.(slots := PromoteSlots(s.slots));
    assert forall f, b :: Answers(c, s.slots, f, b) ==> Answers(c, t.slots, f, b);
    forall v ensures InFlight(t.pool, v) == Processing(t.slots, v) { TallySame(s.slots, t.slots, ProcFd, v); }
  }

  lemma PromoteKeeps(c: Setup, s: Server)
    requires ServerInv(c, s)
    ensures ServerInv(c, s.(slots := PromoteSlots(s.slots)))
  {
    PromoteKeepsTable(c, s);
    PromoteKeepsOwners(c, s);
    PromoteKeepsWork(c, s);
  }

  /** The search for the front result's descriptor ends at the one slot that waits for
      it, and the result holds the file that this slot asked for. */
  lemma FrontResultHasSlot(c: Setup, s: Server)
    requires c.Valid() && ServerInv(c, s) && s.pool.results != []
    ensures var r, i := s.pool.results[0], FirstWith(s.slots, s.pool.results[0].fd, 0);
      && 2 <= i < |s.slots| && s.slots[i].state.PROC? && s.slots[i].fd == r.fd && r.fd >= 0 && r.fd !in c.reserved
      && r.buffer == ReadFile(c.files, s.slots[i].path)
      && forall j :: 0 <= j < |s.slots| && j != i ==> s.slots[j].fd != r.fd
  {
    var f := s.pool.results[0].fd;
    FlightIsProc(c, s, f);
    if InFlight(s.pool, f) == 0 {
      NotInFlight(s.pool, f);
      assert false;
    }
    var i :| 0 <= i < |s.slots| && WaitsFor(s.slots[i], f);
    assert Live(s.slots[i]);
  }

  lemma DispatchMatched(s: Server, i: nat)
    requires Matched(s) && s.pool.results != [] && i == FirstWith(s.slots, s.pool.results[0].fd, 0) < |s.slots|
    requires WaitsFor(s.slots[i], s.pool.results[0].fd) && s.pool.results[0].fd > 0
    ensures Matched(Dispatch(s))
  {
    var t := Dispatch(s);
    forall v
      ensures InFlight(t.pool, v) == Processing(t.slots, v)
    {
      TallyUpdate(s.slots, i, t.slots[i], ProcFd, v);
      assert InFlight(s.pool, v) == InFlight(t.pool, v) + Bit(ResultFd(s.pool.results[0]) == Some(v));
    }
  }

  lemma DispatchKeeps(c: Setup, s: Server)
    requires c.Valid() && ServerInv(c, s) && StepEnabled(c, s, DispatchOne)
    ensures Dispatch(s).status == FAILED <==> s.pool.results[0].fd == 0
    ensures Dispatch(s).status != FAILED ==> ServerInv(c, Dispatch(s))
  {
    FrontResultHasSlot(c, s);
    var i := FirstWith(s.slots, s.pool.results[0].fd, 0);
    var t := Dispatch(s);
    if t.status != FAILED {
      TableChange(c, s, t, i, t.slots[i]);
      FilesChange(c, s, t, i, t.slots[i]);
      AccountedChange(c, s, t, i, t.slots[i]);
      FaithfulChange(c, s, t, i, t.slots[i]);
      DispatchMatched(s, i);
    }
  }

  // ---------------------------------------------------------------------
  // Whole runs
  // ---------------------------------------------------------------------

  lemma StepKeeps(c: Setup, s: Server, act: Step)
    requires c.Valid() && ServerInv(c, s) && StepEnabled(c, s, act)
    ensures StepApply(c, s, act).status != FAILED ==> ServerInv(c, StepApply(c, s, act))
    ensures StepApply(c, s, act).status == FAILED ==> act == DispatchOne && s.pool.results[0].fd == 0
  {
    match act
    case Accept(f) => AcceptKeeps(c, s, f);
    case AcceptFails(f) => AcceptFailsKeeps(c, s, f);
    case Arrives(i, bytes) => ReceiveKeeps(c, s, i, bytes);
    case Sends(i, sent) => SendKeeps(c, s, i, sent);
    case Promote => PromoteKeeps(c, s);
    case DispatchOne => DispatchKeeps(c, s);
    case OpensFile(w, f) => OpenKeeps(c, s, w, f);
    case ClosesFile(w) => CloseKeeps(c, s, w);
    case PoolStep(a) => PoolStepKeeps(c, s, a);
  }

  lemma InitKeeps(c: Setup)
    requires c.Valid()
    ensures ServerInv(c, InitServer(c))
  {
    var s := InitServer(c);
    forall v
      ensures InFlight(s.pool, v) == Processing(s.slots, v)
    {
      TallyZero(s.pool.workers, WorkerFd, v);
      TallyZero(s.slots, ProcFd, v);
    }
  }

  lemma {:induction false} ServerInvAlways(c: Setup, r: Trace)
    requires c.Valid() && TraceValid(c, r)
    ensures Reached(c, r).status != FAILED ==> ServerInv(c, Reached(c, r))
    ensures 0 in c.reserved ==> Reached(c, r).status != FAILED
  {
    match r
    case Begin =>
      InitKeeps(c);
    case Next(before, act) =>
      ServerInvAlways(c, before);
      var s := Reached(c, before);
      StepKeeps(c, s, act);
      if act == DispatchOne {
        FrontResultHasSlot(c, s);
      }
  }

  /** Slots and pool match one to one: in every run the identifiers queued, held by
      workers and delivered are, each of them once, the descriptors of the slots in PROC,
      and no two live slots share a descriptor. */
  lemma SlotsMatchPool(c: Setup, r: Trace, f: int)
    requires c.Valid() && TraceValid(c, r) && Reached(c, r).status != FAILED
    ensures var s := Reached(c, r);
      && InFlight(s.pool, f) == Bit(exists i :: 0 <= i < |s.slots| && WaitsFor(s.slots[i], f))
      && forall i, j :: 0 <= i < j < |s.slots| && Live(s.slots[i]) && Live(s.slots[j]) ==>
          s.slots[i].fd != s.slots[j].fd
  {
    ServerInvAlways(c, r);
    FlightIsProc(c, Reached(c, r), f);
  }

  /** Result dispatch always finds its slot: the search from index 0 stops at the only
      slot with the result's descriptor, that slot waits in PROC, and the result is what
      reading the requested path gives. */
  lemma DispatchFindsItsSlot(c: Setup, r: Trace)
    requires c.Valid() && TraceValid(c, r) && StepEnabled(c, Reached(c, r), DispatchOne)
    ensures var s, res := Reached(c, r), Reached(c, r).pool.results[0];
      var i := FirstWith(s.slots, res.fd, 0);
      && 2 <= i < |s.slots| && WaitsFor(s.slots[i], res.fd)
      && (forall j :: 0 <= j < |s.slots| && j != i ==> s.slots[j].fd != res.fd)
      && res.buffer == ReadFile(c.files, s.slots[i].path)
  {
    ServerInvAlways(c, r);
    FrontResultHasSlot(c, Reached(c, r));
  }

  /** Descriptors are conserved: what is open is exactly what was open at the start, what
      a failed fcntl left behind, the files that workers are reading, and what the live
      slots hold. */
  lemma DescriptorsAreConserved(c: Setup, r: Trace, f: int)
    requires c.Valid() && TraceValid(c, r) && Reached(c, r).status != FAILED
    ensures var s := Reached(c, r);
      f in s.open <==>
        || f in c.reserved || f in s.leaked || IsRead(s.reading, f)
        || exists i :: 0 <= i < |s.slots| && Owns(s.slots[i], f)
  {
    ServerInvAlways(c, r);
  }

  // ---------------------------------------------------------------------
  // When the assertion on the identifier can fail
  // ---------------------------------------------------------------------

  /** One connection that gets descriptor 0 and asks for the empty path. */
  function ZeroTrace(): Trace {
    Next(Next(Next(Next(Next(Next(Begin, Accept(0)), Promote), Arrives(2, "\n")), PoolStep(Look(0))),
              PoolStep(Deliver(0))), DispatchOne)
  }

  lemma ZeroFails(c: Setup)
    requires c.Valid() && 0 !in c.reserved
    ensures TraceValid(c, ZeroTrace()) && Reached(c, ZeroTrace()).status == FAILED
  {
    var r1 := Next(Begin, Accept(0));
    var r2 := Next(r1, Promote);
    var r3 := Next(r2, Arrives(2, "\n"));
    var r4 := Next(r3, PoolStep(Look(0)));
    var r5 := Next(r4, PoolStep(Deliver(0)));
    assert FirstEmpty(Reached(c, Begin).slots, 2) == 2;
    assert Reached(c, r1).slots[2] == Slot(INIT, 0, "", NO_SEND);
    assert Reached(c, r2).slots[2] == Slot(RECV, 0, "", NO_SEND);
    assert Absorb("", "\n") == ("", true);
    assert Reached(c, r3).pool.tasks == [Task(0, "")];
    assert Reached(c, r3).pool.workers[0] == Looking;
    assert Reached(c, r4).pool.workers[0] == Busy(Task(0, ""));
    assert Reached(c, r5).pool.results == [Result(0, ReadFile(c.files, ""))];
  }

  ghost predicate NeverFails(c: Setup) {
    forall r :: TraceValid(c, r) ==> Reached(c, r).status != FAILED
  }

  /** The two assertions of result dispatch hold in every run exactly when descriptor 0
      is taken before the first connection: the one on the search never fails, the one
      on the identifier fails for a connection that is given 0. */
  lemma AssertionsHoldExactlyWhen(c: Setup)
    requires c.Valid()
    ensures NeverFails(c) <==> 0 in c.reserved
  {
    if 0 in c.reserved {
      forall r | TraceValid(c, r)
        ensures Reached(c, r).status != FAILED
      {
        ServerInvAlways(c, r);
      }
    } else {
      ZeroFails(c);
    }
  }
}
