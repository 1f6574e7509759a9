/** A server that waits for a lock gets it: a run for every group of three servers or more. */
module BlockedServer {
  import opened Options
  import opened Commands
  import opened Messages
  import opened Proposers
  import opened Cluster
  import opened BallotSteps
  import opened RoundRuns

  // ---------------------------------------------------------------------
  // Two clients and one lock
  // ---------------------------------------------------------------------

  function Locking(x: int, client: int): Value {
    Value(Cmd(Command(LOCK, x)), Some(client))
  }

  function Unlocking(x: int, client: int): Value {
    Value(Cmd(Command(UNLOCK, x)), Some(client))
  }

  /** Server 0 holds the lock for its client and is idle. */
  ghost predicate ServedFirst(c: Config, p: Proposer, x: int, first: int) {
    && p.id == 0 && p.phase.Idle? && !p.halted && p.num == c.n && p.instance == 1
    && x in p.lockSet && p.log == [LogEntry(0, Locking(x, first))]
  }

  /** Server 1 is to lock x for its client while x is locked. */
  ghost predicate Blocked(c: Config, p: Proposer, x: int, first: int, second: int) {
    && p.id == 1 && p.phase.Ready? && !p.halted && p.num == 1 + c.n && p.instance == 1
    && p.command == Command(LOCK, x) && p.client == second && p.learnt == Locking(x, second)
    && x in p.lockSet && p.acks == [] && p.log == [LogEntry(0, Locking(x, first))]
  }

  /** Server 0 locks x for the first client. */
  lemma FirstLocks(c: Config, x: int, first: int) returns (r: Run)
    requires c.n >= 3
    ensures Valid(c, r) && |Final(c, r).acceptors| == |Final(c, r).proposers| == c.n
    ensures ServedFirst(c, Final(c, r).proposers[0], x, first) && Final(c, r).proposers[1] == InitProposer(1)
    ensures Unheard(Final(c, r), 1) && 0 !in Final(c, r).acceptors[0].history
    ensures HeldFrom(Final(c, r), 2, 0, 0, Locking(x, first))
  {
    var r0 := TakesCommand(c, Start, 0, Command(LOCK, x), first);
    var done;
    r, done := FirstToAsk(c, r0, 0, Final(c, r0).proposers[0]);
  }

  /** Server 1 is asked for the same lock, learns of the first and executes it. */
  lemma SecondIsBlocked(c: Config, x: int, first: int, second: int) returns (r: Run)
    requires c.n >= 3 && first != second
    ensures Valid(c, r) && |Final(c, r).acceptors| == |Final(c, r).proposers| == c.n
    ensures ServedFirst(c, Final(c, r).proposers[0], x, first)
    ensures Blocked(c, Final(c, r).proposers[1], x, first, second)
    ensures Unheard(Final(c, r), 1)
  {
    var r0 := FirstLocks(c, x, first);
    var r1 := TakesCommand(c, r0, 1, Command(LOCK, x), second);
    var done;
    r, done := TakesOver(c, r1, Final(c, r1).proposers[1], 0, Locking(x, first));
    BallotInvAlways(c, r);
  }

  /** Server 0 unlocks x for the first client. */
  lemma FirstUnlocks(c: Config, r: Run, x: int, first: int, second: int) returns (after: Run)
    requires c.n >= 3 && Valid(c, r) && |Final(c, r).acceptors| == |Final(c, r).proposers| == c.n
    requires ServedFirst(c, Final(c, r).proposers[0], x, first) && Unheard(Final(c, r), 1)
    ensures Valid(c, after) && Extends(r, after) && |Final(c, after).acceptors| == |Final(c, after).proposers| == c.n
    ensures Final(c, after).proposers[1] == Final(c, r).proposers[1]
    ensures Unheard(Final(c, after), 2) && 1 !in Final(c, after).acceptors[0].history
    ensures HeldFrom(Final(c, after), 2, 1, c.n, Unlocking(x, first))
  {
    var r1 := TakesCommand(c, r, 0, Command(UNLOCK, x), first);
    var done;
    after, done := FirstToAsk(c, r1, 0, Final(c, r1).proposers[0]);
    ExtendsThrough(r, r1, after);
  }

  /** Server 1 has executed the UNLOCK, and its own LOCK is still to come. */
  ghost predicate Unblocked(c: Config, p: Proposer, x: int, first: int, second: int) {
    && p.id == 1 && p.phase.Ready? && !p.halted && p.instance == 2
    && p.command == Command(LOCK, x) && p.client == second && p.learnt == Locking(x, second)
    && x !in p.lockSet && p.acks == []
    && p.log == [LogEntry(0, Locking(x, first)), LogEntry(1, Unlocking(x, first))]
  }

  /** Server 1 learns of the UNLOCK and executes it. */
  lemma SecondIsUnblocked(c: Config, r: Run, x: int, first: int, second: int) returns (after: Run)
    requires c.n >= 3 && Valid(c, r) && |Final(c, r).acceptors| == |Final(c, r).proposers| == c.n
    requires Blocked(c, Final(c, r).proposers[1], x, first, second)
    requires Unheard(Final(c, r), 2) && 1 !in Final(c, r).acceptors[0].history
    requires HeldFrom(Final(c, r), 2, 1, c.n, Unlocking(x, first))
    ensures Valid(c, after) && Extends(r, after) && |Final(c, after).proposers| == c.n
    ensures Unblocked(c, Final(c, after).proposers[1], x, first, second) && Unheard(Final(c, after), 2)
  {
    var done;
    after, done := TakesOver(c, r, Final(c, r).proposers[1], c.n, Unlocking(x, first));
    assert Final(c, after).proposers[1] == done;
  }

  /** For every group of three servers or more and every variant: server 1 is blocked on
      the LOCK of its client; from there a run goes on in which it learns and executes the
      UNLOCK of the other client, then has its own LOCK resolved, and answers its client. */
  lemma BlockedServerIsServed(c: Config, x: int, first: int, second: int) returns (r: Run, mid: Run, after: Run)
    requires c.n >= 3 && first != second
    ensures Valid(c, after) && Valid(c, mid) && Valid(c, r) && Extends(r, mid) && Extends(mid, after)
    ensures |Final(c, r).proposers| == |Final(c, mid).proposers| == |Final(c, after).proposers| == c.n
    ensures Blocked(c, Final(c, r).proposers[1], x, first, second)
    ensures Unblocked(c, Final(c, mid).proposers[1], x, first, second)
    ensures var p := Final(c, after).proposers[1];
      && p.log == [LogEntry(0, Locking(x, first)), LogEntry(1, Unlocking(x, first)), LogEntry(2, Locking(x, second))]
      && x in p.lockSet && p.phase.Idle? && !p.halted
      && p.acks == [ClientAck(2, Command(LOCK, x), Some(second))]
  {
    r := SecondIsBlocked(c, x, first, second);
    var released := FirstUnlocks(c, r, x, first, second);
    mid := SecondIsUnblocked(c, released, x, first, second);
    ExtendsThrough(r, released, mid);
    var done;
    after, done := FirstToAsk(c, mid, 1, Final(c, mid).proposers[1]);
  }
}
