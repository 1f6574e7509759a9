/** The event loop's arrays, updated in place. */
module AsyncServers {
  import opened Options
  import opened ThreadPool
  import opened SlotTable

  /** The dispatch loop: results are taken while there are any. */
  function DispatchAll(s: Server): Server
    decreases |s.pool.results|
  {
    if s.status != RUNNING || s.pool.results == [] then s else DispatchAll(Dispatch(s))
  }

  class AsyncServer {
    const states: array<SlotState>
    const ufds: array<int>
    const partialFilepaths: array<string>
    const partialSends: array<PartialSend>
    const tpool: ThreadPoolQueues
    var status: Status
    /** The descriptors the operating system has open for the process. */
    ghost var open: set<int>
    ghost var leaked: set<int>
    /** The files that workers hold open. */
    ghost var reading: map<nat, int>

    ghost predicate Valid() {
      states.Length == ufds.Length == partialFilepaths.Length == partialSends.Length > 2
    }

    ghost function Slots(): (s: seq<Slot>)
      requires Valid()
      reads states, ufds, partialFilepaths, partialSends
      ensures |s| == states.Length
      ensures forall i :: 0 <= i < |s| ==> s[i] == Slot(states[i], ufds[i], partialFilepaths[i], partialSends[i])
    {
      seq(states.Length, (i: nat)
        requires i < states.Length && Valid()
        reads states, ufds, partialFilepaths, partialSends
        => Slot(states[i], ufds[i], partialFilepaths[i], partialSends[i]))
    }

    ghost function Table(): Server
      requires Valid()
      reads this, states, ufds, partialFilepaths, partialSends, tpool
    {
      Server(Slots(), open, leaked, reading, tpool.State(), status)
    }

    constructor (c: Setup)
      requires c.Valid()
      ensures Valid() && Table() == InitServer(c)
      ensures fresh(states) && fresh(ufds) && fresh(partialFilepaths) && fresh(partialSends) && fresh(tpool)
    {
      states := new SlotState[c.capacity](_ => EMPTY);
      ufds := new int[c.capacity](i => if i == 0 then c.listener else -1);
      partialFilepaths := new string[c.capacity](_ => "");
      partialSends := new PartialSend[c.capacity](_ => NO_SEND);
      tpool := new ThreadPoolQueues(c.workers);
      status, open, leaked, reading := RUNNING, c.reserved, {}, map[];
      new;
      assert Slots() == InitServer(c).slots;
    }

    /** The listening socket is readable: take the connection into the first free slot. */
    method HandleAccept(newFd: int, fcntlFails: bool)
      requires Valid() && newFd >= 0 && newFd !in open
      modifies this, states, ufds, partialFilepaths
      ensures Table() == if fcntlFails then old(Table()).(open := old(open) + {newFd}, leaked := old(leaked) + {newFd})
                         else AcceptConnection(old(Table()), newFd)
    {
      if fcntlFails {
        open, leaked := open + {newFd}, leaked + {newFd};
        return;
      }
      var k := 2;
      while k < states.Length
        invariant 2 <= k <= states.Length
        invariant FirstEmpty(Slots(), 2) == FirstEmpty(Slots(), k)
      {
        if states[k] == EMPTY {
          break;
        }
        k := k + 1;
      }
      if k == states.Length {
        status := EXITED;
        return;
      }
      ghost var before := Slots();
      ufds[k], states[k], partialFilepaths[k] := newFd, INIT, "";
      open := open + {newFd};
      assert Slots() == before[k := before[k].(state := INIT, fd := newFd, path := "")];
    }

    /** A chunk of a request: append up to the newline, then hand the path to the pool. */
    method HandleReceive(i: nat, bytes: string)
      requires Valid() && 1 <= i < states.Length && states[i] == RECV
      modifies states, partialFilepaths, tpool
      ensures Table() == Receive(old(Table()), i, bytes)
    {
      ghost var before, pool := Slots(), tpool.State();
      var p := 0;
      while p < |bytes|
        invariant 0 <= p <= |bytes|
        invariant Absorb(before[i].path, bytes) == Absorb(partialFilepaths[i], bytes[p..])
        invariant Slots() == before[i := before[i].(path := partialFilepaths[i])]
        invariant tpool.State() == pool
      {
        if bytes[p] == '\n' {
          states[i] := PROC;
          tpool.QueueOne(Task(ufds[i], partialFilepaths[i]));
          assert Slots() == before[i := before[i].(state := PROC, path := partialFilepaths[i])];
          return;
        }
        partialFilepaths[i] := partialFilepaths[i] + [bytes[p]];
        p := p + 1;
      }
    }

    /** A send call on slot i returned `sent`. */
    method HandleSend(i: nat, sent: int)
      requires Valid() && 1 <= i < states.Length && states[i] == SEND
      modifies this`open, states, ufds
      ensures Table() == SendResponse(old(Table()), i, sent)
    {
      if sent < 0 {
        return;
      }
      ghost var before := Slots();
      var partialSend := partialSends[i];
      partialSend := partialSend.(index := partialSend.index + sent);
      if partialSend.index >= sent {
        open := open - {partialSend.fd};
        states[i] := EMPTY;
        ufds[i] := -1;
        assert Slots() == before[i := Released(before[i])];
      }
    }

    /** The state transition after the events. */
    method PromoteAll()
      requires Valid()
      modifies states
      ensures Table() == old(Table()).(slots := PromoteSlots(old(Slots())))
    {
      ghost var before := Slots();
      var i := 1;
      while i < states.Length
        invariant 1 <= i <= states.Length
        invariant forall j :: 0 <= j < i ==> Slots()[j] == PromoteSlots(before)[j]
        invariant forall j :: i <= j < states.Length ==> Slots()[j] == before[j]
      {
        if states[i] == INIT {
          states[i] := RECV;
        }
        i := i + 1;
      }
      assert Slots() == PromoteSlots(before);
    }

    /** Route the front result to the slot with its descriptor. */
    method DispatchResult()
      requires Valid() && tpool.resultQueue != []
      modifies this, states, ufds, partialSends, tpool
      ensures Table() == Dispatch(old(Table()))
    {
      ghost var before := Slots();
      var result := tpool.DequeueResult();
      var y := 0;
      while y < ufds.Length && ufds[y] != result.fd
        invariant 0 <= y <= ufds.Length
        invariant FirstWith(before, result.fd, 0) == FirstWith(before, result.fd, y)
      {
        y := y + 1;
      }
      if result.fd <= 0 || y == ufds.Length {
        status := FAILED;
      } else if result.buffer == None {
        open := open - {result.fd};
        ufds[y] := -1;
        states[y] := EMPTY;
        assert Slots() == before[y := Released(before[y])];
      } else {
        partialSends[y] := PartialSend(0, result.fd, result.buffer);
        states[y] := SEND;
        assert Slots() == before[y := before[y].(state := SEND, send := PartialSend(0, result.fd, result.buffer))];
      }
    }

    method DispatchResults()
      requires Valid()
      modifies this, states, ufds, partialSends, tpool
      ensures Table() == DispatchAll(old(Table()))
    {
      while status == RUNNING && tpool.resultQueue != []
        invariant DispatchAll(Table()) == DispatchAll(old(Table()))
        decreases |tpool.resultQueue|
      {
        DispatchResult();
      }
    }
  }
}
