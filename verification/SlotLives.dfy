/** How slots live and die, in every run of the event loop. */
module SlotLives {
  import opened Options
  import opened ThreadPool
  import opened SlotTable
  import opened SlotMatching
  import opened AsyncServers

  /** Every slot below i that can serve a connection does. */
  predicate AllTaken(slots: seq<Slot>, i: nat) {
    forall j :: 2 <= j < |slots| && j < i ==> Live(slots[j])
  }

  /** A connection goes to the first slot from 2 on that is free. */
  predicate Takes(slots: seq<Slot>, act: Step, i: nat) {
    act.Accept? && 2 <= i < |slots| && !Live(slots[i]) && AllTaken(slots, i)
  }

  /** The front result is for the connection of slot i. */
  predicate ResultFor(s: Server, act: Step, i: nat) {
    act.DispatchOne? && s.pool.results != [] && i < |s.slots| && s.pool.results[0].fd == s.slots[i].fd != 0
  }

  /** The life of a slot, state by state: the one step that ends each state, and what the
      slot is after it. */
  predicate Lives(c: Setup, s: Server, act: Step, i: nat, b: Slot)
    requires i < |s.slots|
  {
    var a := s.slots[i];
    match a.state
    case EMPTY => if Takes(s.slots, act, i) then b == a.(state := INIT, fd := act.newFd, path := "") else b == a
    case INIT => if act.Promote? then b == a.(state := RECV) else b == a
    case RECV =>
      if act.Arrives? && act.i == i then
        && b == a.(state := b.state, path := b.path)
        && b.state == (if '\n' in act.bytes then PROC else RECV)
      else b == a
    case PROC =>
      if !ResultFor(s, act, i) then b == a
      else if a.path in c.files then b == a.(state := SEND, send := PartialSend(0, a.fd, Some(c.files[a.path])))
      else b == a.(state := EMPTY, fd := -1)
    case SEND =>
      if act.Sends? && act.i == i && act.sent >= 0 then b == a.(state := EMPTY, fd := -1) else b == a
  }

  lemma AbsorbSeesNewline(path: string, bytes: string)
    ensures Absorb(path, bytes).1 <==> '\n' in bytes
    decreases |bytes|
  {
    if bytes != [] && bytes[0] != '\n' {
      AbsorbSeesNewline(path + [bytes[0]], bytes[1..]);
      assert bytes == [bytes[0]] + bytes[1..];
    }
  }

  lemma AcceptLives(c: Setup, s: Server, newFd: int, i: nat)
    requires ServerInv(c, s) && StepEnabled(c, s, Accept(newFd)) && i < c.capacity
    ensures |AcceptConnection(s, newFd).slots| == c.capacity
    ensures Lives(c, s, Accept(newFd), i, AcceptConnection(s, newFd).slots[i])
  {
    var k := FirstEmpty(s.slots, 2);
    if k < i && i < |s.slots| {
      assert 2 <= k && !Live(s.slots[k]);
    }
  }

  lemma DispatchLives(c: Setup, s: Server, i: nat)
    requires c.Valid() && ServerInv(c, s) && StepEnabled(c, s, DispatchOne) && i < c.capacity
    ensures |Dispatch(s).slots| == c.capacity
    ensures Lives(c, s, DispatchOne, i, Dispatch(s).slots[i])
  {
    FrontResultHasSlot(c, s);
  }

  lemma StepLives(c: Setup, s: Server, act: Step, i: nat)
    requires c.Valid() && ServerInv(c, s) && StepEnabled(c, s, act) && i < c.capacity
    ensures |StepApply(c, s, act).slots| == c.capacity
    ensures Lives(c, s, act, i, StepApply(c, s, act).slots[i])
  {
    match act
    case Accept(f) => AcceptLives(c, s, f, i);
    case AcceptFails(f) =>
    case Arrives(j, bytes) => AbsorbSeesNewline(s.slots[j].path, bytes);
    case Sends(j, sent) =>
    case Promote =>
    case DispatchOne => DispatchLives(c, s, i);
    case OpensFile(w, f) =>
    case ClosesFile(w) =>
    case PoolStep(a) =>
  }

  /** In every run every slot lives by these rules: it takes a connection only as the
      first that is free, starts receiving after the events of one pass, waits for the
      pool from its first newline on, gets the answer to its own request, and is freed
      only by a send that succeeds or by the result for a missing file. */
  lemma SlotsLiveByRules(c: Setup, r: Trace, act: Step, i: nat)
    requires c.Valid() && TraceValid(c, Next(r, act)) && i < c.capacity
    ensures |Reached(c, r).slots| == |Reached(c, Next(r, act)).slots| == c.capacity
    ensures Lives(c, Reached(c, r), act, i, Reached(c, Next(r, act)).slots[i])
  {
    ServerInvAlways(c, r);
    StepLives(c, Reached(c, r), act, i);
  }

  /** What a step opens and closes. */
  predicate Opens(c: Setup, s: Server, act: Step, t: Server) {
    match act
    case Accept(f) => t.open == (if AllTaken(s.slots, |s.slots|) then s.open else s.open + {f})
    case AcceptFails(f) => t.open == s.open + {f}
    case Arrives(_, _) => t.open == s.open
    case Sends(i, sent) => i < |s.slots| && t.open == if sent < 0 then s.open else s.open - {s.slots[i].fd}
    case Promote => t.open == s.open
    case DispatchOne =>
      && s.pool.results != []
      && var res := s.pool.results[0];
      t.open == if res.buffer == None && res.fd != 0 then s.open - {res.fd} else s.open
    case OpensFile(_, f) => t.open == s.open + {f}
    case ClosesFile(w) => w in s.reading && t.open == s.open - {s.reading[w]}
    case PoolStep(_) => t.open == s.open
  }

  /** How a step ends the process: a connection for which there is no slot is the end,
      and so is a result for descriptor 0. */
  predicate Ends(s: Server, act: Step, t: Server) {
    && (t.status == EXITED <==> act.Accept? && AllTaken(s.slots, |s.slots|))
    && (t.status == FAILED <==> act.DispatchOne? && s.pool.results != [] && s.pool.results[0].fd == 0)
  }

  lemma StepEffects(c: Setup, s: Server, act: Step)
    requires c.Valid() && ServerInv(c, s) && StepEnabled(c, s, act)
    ensures Opens(c, s, act, StepApply(c, s, act)) && Ends(s, act, StepApply(c, s, act))
  {
    if act.DispatchOne? {
      FrontResultHasSlot(c, s);
    } else if act.Accept? {
      var k := FirstEmpty(s.slots, 2);
      assert k < |s.slots| ==> !Live(s.slots[k]);
    }
  }

  /** In every run descriptors are opened and closed, and the process ends, by these
      rules; a send that fails changes nothing at all. */
  lemma StepsActByRules(c: Setup, r: Trace, act: Step)
    requires c.Valid() && TraceValid(c, Next(r, act))
    ensures Opens(c, Reached(c, r), act, Reached(c, Next(r, act)))
    ensures Ends(Reached(c, r), act, Reached(c, Next(r, act)))
    ensures act.Sends? && act.sent < 0 ==> Reached(c, Next(r, act)) == Reached(c, r)
  {
    ServerInvAlways(c, r);
    StepEffects(c, Reached(c, r), act);
  }

  /** Accepting over whole runs: a full table ends the process and changes nothing else;
      otherwise exactly one slot comes to life, in INIT and with the new descriptor. */
  lemma AcceptTakesOneSlot(c: Setup, r: Trace, newFd: int) returns (k: nat)
    requires c.Valid() && TraceValid(c, Next(r, Accept(newFd)))
    ensures var s, t := Reached(c, r), Reached(c, Next(r, Accept(newFd)));
      && (t.status == EXITED <==> AllTaken(s.slots, |s.slots|))
      && (t.status == EXITED ==> t == s.(status := EXITED))
      && (t.status != EXITED ==>
            && 2 <= k < |s.slots| && !Live(s.slots[k])
            && t.slots == s.slots[k := s.slots[k].(state := INIT, fd := newFd, path := "")]
            && t == s.(slots := t.slots, open := s.open + {newFd}))
  {
    var s := Reached(c, r);
    ServerInvAlways(c, r);
    StepEffects(c, s, Accept(newFd));
    k := FirstEmpty(s.slots, 2);
  }

  // ---------------------------------------------------------------------
  // The pool of the event loop
  // ---------------------------------------------------------------------

  /** What a run of the server does to the pool: a request that becomes complete is queued
      with its descriptor and path, dispatch takes a result, workers do their steps. */
  ghost function PoolPart(c: Setup, r: Trace): PoolRun
    requires TraceValid(c, r)
  {
    match r
    case Begin => PoolStart(c.workers)
    case Next(before, act) =>
      var s, t := Reached(c, before), Reached(c, r);
      match act
      case Arrives(i, bytes) =>
        if '\n' in bytes && i < |s.slots| && i < |t.slots|
        then PoolThen(PoolPart(c, before), Queue(Task(s.slots[i].fd, t.slots[i].path)))
        else PoolPart(c, before)
      case DispatchOne => PoolThen(PoolPart(c, before), Collect)
      case PoolStep(a) => PoolThen(PoolPart(c, before), a)
      case _ => PoolPart(c, before)
  }

  /** The pool of a server is a pool run, so requests are served in the order in which
      they became complete, and results are dispatched in the order of their delivery. */
  lemma {:induction false} ServerPoolIsPoolRun(c: Setup, r: Trace)
    requires TraceValid(c, r)
    ensures PoolValid(c.files, PoolPart(c, r)) && PoolFinal(c.files, PoolPart(c, r)) == Reached(c, r).pool
  {
    match r
    case Begin =>
    case Next(before, act) =>
      ServerPoolIsPoolRun(c, before);
      if act.Arrives? {
        AbsorbSeesNewline(Reached(c, before).slots[act.i].path, act.bytes);
      }
  }

  lemma RequestsAreServedInOrder(c: Setup, r: Trace)
    requires TraceValid(c, r)
    ensures PoolValid(c.files, PoolPart(c, r))
    ensures Queued(PoolPart(c, r)) == Taken(c.files, PoolPart(c, r)) + Reached(c, r).pool.tasks
    ensures Delivered(c.files, PoolPart(c, r)) == Collected(c.files, PoolPart(c, r)) + Reached(c, r).pool.results
  {
    ServerPoolIsPoolRun(c, r);
    TasksAreServedInOrder(c.files, PoolPart(c, r));
    ResultsAreServedInOrder(c.files, PoolPart(c, r));
  }

  // ---------------------------------------------------------------------
  // The dispatch loop
  // ---------------------------------------------------------------------

  /** After r only results were dispatched. */
  predicate OnlyDispatches(r: Trace, all: Trace) {
    r == all || (all.Next? && all.act.DispatchOne? && OnlyDispatches(r, all.before))
  }

  lemma {:induction false} DispatchesConcat(r: Trace, mid: Trace, all: Trace)
    requires OnlyDispatches(r, mid) && OnlyDispatches(mid, all)
    ensures OnlyDispatches(r, all)
    decreases all
  {
    if mid != all {
      DispatchesConcat(r, mid, all.before);
    }
  }

  /** The dispatch loop is a run of dispatch steps that leaves no result behind, unless
      the process stops. */
  lemma {:induction false} DispatchLoopDrains(c: Setup, r: Trace) returns (all: Trace)
    requires c.Valid() && TraceValid(c, r) && |Reached(c, r).slots| >= 2
    ensures TraceValid(c, all) && Reached(c, all) == DispatchAll(Reached(c, r)) && OnlyDispatches(r, all)
    ensures Reached(c, all).pool.results == [] || Reached(c, all).status != RUNNING
    decreases |Reached(c, r).pool.results|
  {
    var s := Reached(c, r);
    if s.status != RUNNING || s.pool.results == [] {
      all := r;
    } else {
      all := DispatchLoopDrains(c, Next(r, DispatchOne));
      DispatchesConcat(r, Next(r, DispatchOne), all);
    }
  }
}
