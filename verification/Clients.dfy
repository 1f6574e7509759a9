/** What the service promises its clients: every command once and in order, and no
    lock taken twice or released by somebody else. */
module Clients {
  import opened Options
  import opened Commands
  import opened Messages
  import opened Proposers
  import opened Cluster
  import opened Ballots
  import opened BallotSteps
  import opened Consensus
  import opened Replicas

  // ---------------------------------------------------------------------
  // Two acquisitions of a lock are separated by a release
  // ---------------------------------------------------------------------

  /** A resource that stays in the table unless it is unlocked. */
  lemma {:induction false} HeldUntilReleased(log: seq<LogEntry>, r: int, j: nat, k: nat)
    requires j < k <= |log| && LockTable(log[..k]).Some?
    requires CommandOf(log[j].value) == Command(LOCK, r)
    requires forall l :: j < l < k ==> CommandOf(log[l].value) != Command(UNLOCK, r)
    ensures r in LockTable(log[..k]).value
  {
    assert log[..k] == log[..k - 1] + [log[k - 1]];
    LockTableAppend(log[..k - 1], log[k - 1]);
    if j < k - 1 {
      HeldUntilReleased(log, r, j, k - 1);
    }
  }

  /** Mutual exclusion as clients see it: in any server's log, between two LOCKs of a
      resource there is an UNLOCK of it. */
  lemma {:induction false} LocksAlternate(c: Config, r: Run, p: nat, resource: int, j: nat, k: nat)
    requires c.n > 0 && Safe(c.variant) && Valid(c, r) && p < c.n
    requires |Final(c, r).proposers| == c.n
    requires var log := Final(c, r).proposers[p].log;
      && j < k < |log|
      && CommandOf(log[j].value) == CommandOf(log[k].value) == Command(LOCK, resource)
    ensures var log := Final(c, r).proposers[p].log;
      exists l :: j < l < k && CommandOf(log[l].value) == Command(UNLOCK, resource)
  {
    MutualExclusion(c, r, p);
    var log := Final(c, r).proposers[p].log;
    assert LocksFree(log[..k], log[k].value);
    if forall l :: j < l < k ==> CommandOf(log[l].value) != Command(UNLOCK, resource) {
      HeldUntilReleased(log, resource, j, k);
    }
  }

  // ---------------------------------------------------------------------
  // Exactly once, in order
  // ---------------------------------------------------------------------

  /** Every client id is used at one server only: at home[id]. */
  ghost predicate Homed(home: map<int, nat>, r: Run) {
    match r
    case Start => true
    case Then(before, act) =>
      && Homed(home, before)
      && (act.ClientSubmits? ==> act.client in home && home[act.client] == act.p)
  }

  predicate HomeIs(home: map<int, nat>, client: Option<int>, p: nat) {
    client.Some? && client.value in home && home[client.value] == p
  }

  /** The commands acknowledged to a client, in order. */
  function AckedTo(acks: seq<ClientAck>, client: int): seq<Command> {
    if acks == [] then []
    else
      var last := acks[|acks| - 1];
      AckedTo(acks[..|acks| - 1], client) + (if last.client == Some(client) then [last.command] else [])
  }

  /** The commands of a log that carry a client's id, in order. */
  function LoggedFor(log: seq<LogEntry>, client: int): seq<Command> {
    if log == [] then []
    else
      var last := log[|log| - 1].value;
      LoggedFor(log[..|log| - 1], client) + (if last.client == Some(client) then [CommandOf(last)] else [])
  }

  /** The acknowledgements that the entries of p's own clients call for. */
  function AcksFor(home: map<int, nat>, p: nat, log: seq<LogEntry>): seq<ClientAck> {
    if log == [] then []
    else
      var last := log[|log| - 1];
      AcksFor(home, p, log[..|log| - 1])
      + (if HomeIs(home, last.value.client, p)
         then [ClientAck(last.instance, CommandOf(last.value), last.value.client)] else [])
  }

  lemma {:induction false} AcksForClient(home: map<int, nat>, p: nat, log: seq<LogEntry>, client: int)
    requires client in home && home[client] == p
    ensures AckedTo(AcksFor(home, p, log), client) == LoggedFor(log, client)
  {
    if log != [] {
      AcksForClient(home, p, log[..|log| - 1], client);
      var before := AcksFor(home, p, log[..|log| - 1]);
      var after := AcksFor(home, p, log);
      if |after| > |before| {
        assert after[..|after| - 1] == before;
      } else {
        assert after == before;
      }
    }
  }

  /** A value offered at instance i comes from its client's server, which offered it
      at i, and is still serving it if it is still at i. */
  ghost predicate FromHome(c: Config, s: System, home: map<int, nat>, i: nat, v: Value)
    requires Shape(c, s)
  {
    && v.client.Some? && v.client.value in home && home[v.client.value] < c.n
    && var h := s.proposers[home[v.client.value]];
    && i <= h.instance
    && (i == h.instance && !h.halted ==> !h.phase.Idle? && h.Own() == v)
  }

  ghost predicate OnceInv(c: Config, s: System, home: map<int, nat>)
    requires Shape(c, s)
  {
    && (forall m :: m in s.requests && m.kind.ACCEPT? ==> FromHome(c, s, home, m.instance, ValueOf(m)))
    && (forall p :: 0 <= p < c.n ==>
          && (!s.proposers[p].phase.Idle? ==> HomeIs(home, Some(s.proposers[p].client), p))
          && s.proposers[p].acks == AcksFor(home, p, s.proposers[p].log))
  }

  lemma FromHomeStable(c: Config, s: System, home: map<int, nat>, act: Action, i: nat, v: Value)
    requires BallotInv(c, s) && Typed(s) && Enabled(c, s, act) && FromHome(c, s, home, i, v)
    ensures Shape(c, Apply(c, s, act)) && FromHome(c, Apply(c, s, act), home, i, v)
  {
    ShapeStep(c, s, act);
    ReplicaEffect(c, s, act, home[v.client.value]);
  }

  /** What a proposer resolves under a client of its own is what it is serving. */
  lemma ForeignOrOwn(c: Config, s: System, home: map<int, nat>, p: nat)
    requires Shape(c, s) && OnceInv(c, s, home) && LearntBacked(s) && p < c.n && !s.proposers[p].halted
    requires s.proposers[p].learnt != s.proposers[p].Own()
    ensures FromHome(c, s, home, s.proposers[p].instance, s.proposers[p].learnt)
    ensures !HomeIs(home, s.proposers[p].learnt.client, p)
  {
    var i, v := s.proposers[p].instance, s.proposers[p].learnt;
    var m :| m in s.requests && m.kind.ACCEPT? && m.instance == i && ValueOf(m) == v;
    assert FromHome(c, s, home, m.instance, ValueOf(m));
  }

  lemma OnceStep(c: Config, s: System, home: map<int, nat>, act: Action)
    requires ReplicaInv(c, s) && OnceInv(c, s, home) && Enabled(c, s, act)
    requires act.ClientSubmits? ==> act.client in home && home[act.client] == act.p
    ensures Shape(c, Apply(c, s, act)) && OnceInv(c, Apply(c, s, act), home)
  {
    ShapeStep(c, s, act);
    var t := Apply(c, s, act);
    forall m | m in t.requests && m.kind.ACCEPT?
      ensures FromHome(c, t, home, m.instance, ValueOf(m))
    {
      if m !in s.requests {
        NewAcceptRequest(c, s, act, m);
        var before := s.proposers[act.p];
        if before.learnt != before.Own() {
          ForeignOrOwn(c, s, home, act.p);
        }
      }
      FromHomeStable(c, s, home, act, m.instance, ValueOf(m));
    }
    forall p | 0 <= p < c.n
      ensures !t.proposers[p].phase.Idle? ==> HomeIs(home, Some(t.proposers[p].client), p)
      ensures t.proposers[p].acks == AcksFor(home, p, t.proposers[p].log)
    {
      OnceStepAt(c, s, home, act, p);
    }
  }

  lemma OnceStepAt(c: Config, s: System, home: map<int, nat>, act: Action, p: nat)
    requires ReplicaInv(c, s) && OnceInv(c, s, home) && Enabled(c, s, act) && p < c.n
    requires act.ClientSubmits? ==> act.client in home && home[act.client] == act.p
    ensures |Apply(c, s, act).proposers| == c.n
    ensures var after := Apply(c, s, act).proposers[p];
      && (!after.phase.Idle? ==> HomeIs(home, Some(after.client), p))
      && after.acks == AcksFor(home, p, after.log)
  {
    ReplicaEffect(c, s, act, p);
    var before, after := s.proposers[p], Apply(c, s, act).proposers[p];
    assert HomeIs(home, Some(before.client), p) || before.phase.Idle?;
    if Finishes(c, s, act, p) {
      assert after.log[..|after.log| - 1] == before.log;
      assert before.Own().client == Some(before.client);
      if before.learnt != before.Own() {
        ForeignOrOwn(c, s, home, p);
      }
    }
  }

  lemma {:induction false} OnceInvAlways(c: Config, r: Run, home: map<int, nat>)
    requires c.n > 0 && Valid(c, r) && Homed(home, r)
    ensures ReplicaInv(c, Final(c, r)) && OnceInv(c, Final(c, r), home)
  {
    ReplicaInvAlways(c, r);
    match r
    case Start =>
    case Then(before, act) =>
      OnceInvAlways(c, before, home);
      OnceStep(c, Final(c, before), home, act);
  }

  /** Exactly once, in order: if client ids are used at one server only, the entries
      of that server's log that carry an id are, in order, exactly the commands it
      acknowledged to that client. */
  lemma {:induction false} ExactlyOnceInOrder(c: Config, r: Run, home: map<int, nat>, client: int)
    requires c.n > 0 && Valid(c, r) && Homed(home, r)
    requires client in home && home[client] < c.n
    ensures |Final(c, r).proposers| == c.n
    ensures var p := Final(c, r).proposers[home[client]];
      LoggedFor(p.log, client) == AckedTo(p.acks, client)
  {
    OnceInvAlways(c, r, home);
    AcksForClient(home, home[client], Final(c, r).proposers[home[client]].log, client);
  }

  // ---------------------------------------------------------------------
  // Releases are safe
  // ---------------------------------------------------------------------

  /** What a client holds after a sequence of its own commands. */
  function HeldAfter(cs: seq<Command>): set<int> {
    if cs == [] then {}
    else
      var held, last := HeldAfter(cs[..|cs| - 1]), cs[|cs| - 1];
      match last.kind
      case LOCK => held + {last.resource}
      case UNLOCK => held - {last.resource}
      case NONE => held
  }

  /** A client sends LOCKs, and UNLOCKs of what it still holds by the commands that
      have been acknowledged to it. */
  predicate FairSubmission(p: Proposer, command: Command, client: int) {
    && !command.kind.NONE?
    && (command.kind.UNLOCK? ==> command.resource in HeldAfter(AckedTo(p.acks, client)))
  }

  ghost predicate Disciplined(c: Config, r: Run)
    requires Valid(c, r)
  {
    match r
    case Start => true
    case Then(before, act) =>
      && Disciplined(c, before)
      && (act.ClientSubmits? ==> FairSubmission(Final(c, before).proposers[act.p], act.command, act.client))
  }

  function HeldIn(log: seq<LogEntry>, client: int): set<int> {
    HeldAfter(LoggedFor(log, client))
  }

  /** A command that only releases what its own client holds in the log. */
  predicate Owned(log: seq<LogEntry>, v: Value) {
    && v.client.Some? && !CommandOf(v).kind.NONE?
    && (CommandOf(v).kind.UNLOCK? ==> CommandOf(v).resource in HeldIn(log, v.client.value))
  }

  /** A log whose entries all were free to be locked, or were held by their client. */
  predicate WellOwned(log: seq<LogEntry>) {
    log != [] ==>
      var before, last := log[..|log| - 1], log[|log| - 1].value;
      WellOwned(before) && LocksFree(before, last) && Owned(before, last)
  }

  lemma LoggedForAppend(log: seq<LogEntry>, e: LogEntry, client: int)
    ensures LoggedFor(log + [e], client)
         == LoggedFor(log, client) + (if e.value.client == Some(client) then [CommandOf(e.value)] else [])
  {
    assert (log + [e])[..|log|] == log;
  }

  lemma HeldAfterAppend(cs: seq<Command>, d: Command)
    ensures HeldAfter(cs + [d]) ==
      match d.kind
      case LOCK => HeldAfter(cs) + {d.resource}
      case UNLOCK => HeldAfter(cs) - {d.resource}
      case NONE => HeldAfter(cs)
  {
    assert (cs + [d])[..|cs|] == cs;
  }

  lemma HeldInAppend(log: seq<LogEntry>, e: LogEntry, client: int)
    ensures HeldIn(log + [e], client) ==
      if e.value.client != Some(client) then HeldIn(log, client)
      else match CommandOf(e.value).kind
           case LOCK => HeldIn(log, client) + {CommandOf(e.value).resource}
           case UNLOCK => HeldIn(log, client) - {CommandOf(e.value).resource}
           case NONE => HeldIn(log, client)
  {
    LoggedForAppend(log, e, client);
    HeldAfterAppend(LoggedFor(log, client), CommandOf(e.value));
    assert LoggedFor(log, client) + [] == LoggedFor(log, client);
  }

  /** The table never refuses a command of the log, what a client holds is in the
      table, and no two clients hold the same lock. */
  ghost predicate OneHolder(log: seq<LogEntry>) {
    && LockTable(log).Some?
    && (forall a, x :: x in HeldIn(log, a) ==> x in LockTable(log).value)
    && (forall a, b, x :: x in HeldIn(log, a) && x in HeldIn(log, b) ==> a == b)
  }

  /** Where a held lock comes from: it was held before, or this entry took it. */
  lemma HolderBefore(log: seq<LogEntry>, e: LogEntry, a: int, x: int)
    requires e.value.client.Some? && !CommandOf(e.value).kind.NONE? && x in HeldIn(log + [e], a)
    ensures || (x in HeldIn(log, a) && (e.value.client == Some(a) ==> CommandOf(e.value) != Command(UNLOCK, x)))
            || (e.value.client == Some(a) && CommandOf(e.value) == Command(LOCK, x))
  {
    HeldInAppend(log, e, a);
  }

  lemma HeldIsInTable(log: seq<LogEntry>, e: LogEntry, a: int, x: int)
    requires OneHolder(log) && LocksFree(log, e.value) && Owned(log, e.value)
    requires x in HeldIn(log + [e], a)
    ensures LockTable(log + [e]).Some? && x in LockTable(log + [e]).value
  {
    LockTableAppend(log, e);
    ExecuteFailsExactlyWhen(CommandsOf(log), CommandOf(e.value));
    HolderBefore(log, e, a, x);
  }

  lemma HolderIsUnique(log: seq<LogEntry>, e: LogEntry, a: int, b: int, x: int)
    requires OneHolder(log) && LocksFree(log, e.value) && Owned(log, e.value)
    requires x in HeldIn(log + [e], a) && x in HeldIn(log + [e], b)
    ensures a == b
  {
    HolderBefore(log, e, a, x);
    HolderBefore(log, e, b, x);
  }

  lemma OneHolderStep(log: seq<LogEntry>, e: LogEntry)
    requires OneHolder(log) && LocksFree(log, e.value) && Owned(log, e.value)
    ensures OneHolder(log + [e])
  {
    LockTableAppend(log, e);
    ExecuteFailsExactlyWhen(CommandsOf(log), CommandOf(e.value));
    forall a, x | x in HeldIn(log + [e], a)
      ensures x in LockTable(log + [e]).value
    {
      HeldIsInTable(log, e, a, x);
    }
    forall a, b, x | x in HeldIn(log + [e], a) && x in HeldIn(log + [e], b)
      ensures a == b
    {
      HolderIsUnique(log, e, a, b, x);
    }
  }

  lemma {:induction false} WellOwnedReplays(log: seq<LogEntry>)
    requires WellOwned(log)
    ensures OneHolder(log)
  {
    if log == [] {
      assert CommandsOf(log) == [];
    } else {
      var before, e := log[..|log| - 1], log[|log| - 1];
      assert log == before + [e];
      WellOwnedReplays(before);
      OneHolderStep(before, e);
    }
  }

  lemma NeverStops(q: Proposer)
    requires LogCoherent(q) && WellOwned(q.log)
    ensures !q.halted && LockTable(q.log) == Some(q.lockSet)
  {
    WellOwnedReplays(q.log);
    assert q.log[..|q.log|] == q.log;
    if q.halted {
      assert q.log == q.log[..q.instance] + [q.log[q.instance]];
      LockTableAppend(q.log[..q.instance], q.log[q.instance]);
    }
  }

  /** What is offered, or about to be, is owned by its client on the log it follows. */
  ghost predicate OffersOwned(c: Config, s: System)
    requires Shape(c, s)
  {
    && (forall m :: m in s.requests && m.kind.ACCEPT? ==>
          && m.origin < c.n && m.instance <= |s.proposers[m.origin].log|
          && Owned(s.proposers[m.origin].log[..m.instance], ValueOf(m)))
    && (forall p :: 0 <= p < c.n && !s.proposers[p].halted && !s.proposers[p].phase.Idle? ==>
          Owned(s.proposers[p].log, s.proposers[p].Own()))
  }

  lemma BackedIsOwned(c: Config, s: System, p: nat, v: Value)
    requires ReplicaInv(c, s) && OffersOwned(c, s) && Safe(c.variant) && p < c.n && !s.proposers[p].halted
    requires Backed(s, s.proposers[p].instance, v)
    ensures Owned(s.proposers[p].log, v)
  {
    var i := s.proposers[p].instance;
    var m :| m in s.requests && m.kind.ACCEPT? && m.instance == i && ValueOf(m) == v;
    assert LogSound(c, s, p);
    LogsAgree(c, s, p, m.origin, i);
    assert s.proposers[p].log[..i] == s.proposers[p].log;
  }

  lemma OwnStaysOwned(c: Config, s: System, home: map<int, nat>, act: Action, p: nat)
    requires ReplicaInv(c, s) && OnceInv(c, s, home) && OffersOwned(c, s) && Enabled(c, s, act) && p < c.n
    requires act.ClientSubmits? ==> act.client in home && home[act.client] == act.p
    requires act.ClientSubmits? ==> FairSubmission(s.proposers[act.p], act.command, act.client)
    ensures |Apply(c, s, act).proposers| == c.n
    ensures var after := Apply(c, s, act).proposers[p];
      !after.halted && !after.phase.Idle? ==> Owned(after.log, after.Own())
  {
    ReplicaEffect(c, s, act, p);
    var before, after := s.proposers[p], Apply(c, s, act).proposers[p];
    if Finishes(c, s, act, p) {
      if before.learnt != before.Own() {
        ForeignOrOwn(c, s, home, p);
        HeldInAppend(before.log, LogEntry(before.instance, before.learnt), before.client);
      }
    } else if act.ClientSubmits? && act.p == p {
      AcksForClient(home, p, before.log, act.client);
    }
  }

  lemma OffersOwnedStep(c: Config, s: System, home: map<int, nat>, act: Action)
    requires ReplicaInv(c, s) && OnceInv(c, s, home) && OffersOwned(c, s) && Safe(c.variant) && Enabled(c, s, act)
    requires act.ClientSubmits? ==> act.client in home && home[act.client] == act.p
    requires act.ClientSubmits? ==> FairSubmission(s.proposers[act.p], act.command, act.client)
    ensures Shape(c, Apply(c, s, act)) && OffersOwned(c, Apply(c, s, act))
  {
    ShapeStep(c, s, act);
    var t := Apply(c, s, act);
    forall m | m in t.requests && m.kind.ACCEPT?
      ensures && m.origin < c.n && m.instance <= |t.proposers[m.origin].log|
              && Owned(t.proposers[m.origin].log[..m.instance], ValueOf(m))
    {
      if m in s.requests {
        LogsGrow(c, s, act, m.origin, m.instance);
      } else {
        NewAcceptRequest(c, s, act, m);
        var before := s.proposers[act.p];
        assert LogSound(c, s, act.p);
        assert before.log[..before.instance] == before.log == t.proposers[act.p].log;
        if before.learnt != before.Own() {
          BackedIsOwned(c, s, act.p, before.learnt);
        }
      }
    }
    forall p | 0 <= p < c.n && !t.proposers[p].halted && !t.proposers[p].phase.Idle?
      ensures Owned(t.proposers[p].log, t.proposers[p].Own())
    {
      OwnStaysOwned(c, s, home, act, p);
    }
  }

  lemma {:induction false} OffersOwnedAlways(c: Config, r: Run, home: map<int, nat>)
    requires c.n > 0 && Safe(c.variant) && Valid(c, r) && Homed(home, r) && Disciplined(c, r)
    ensures ReplicaInv(c, Final(c, r)) && OffersOwned(c, Final(c, r))
  {
    ReplicaInvAlways(c, r);
    match r
    case Start =>
    case Then(before, act) =>
      OffersOwnedAlways(c, before, home);
      OnceInvAlways(c, before, home);
      OffersOwnedStep(c, Final(c, before), home, act);
  }

  lemma EntryOwned(c: Config, s: System, p: nat, j: nat)
    requires ReplicaInv(c, s) && OffersOwned(c, s) && Safe(c.variant) && p < c.n && j < |s.proposers[p].log|
    ensures Owned(s.proposers[p].log[..j], s.proposers[p].log[j].value)
  {
    assert LogSound(c, s, p);
    var v := s.proposers[p].log[j].value;
    assert Chosen(c, s, j, v);
    var k: nat :| ChosenAt(c, s, j, k, v);
    ChosenWasOffered(c, s, j, k, v);
    var m := AcceptMsg(k, j, v, Owner(c.n, k));
    assert m in s.requests && ValueOf(m) == v;
    LogsAgree(c, s, p, m.origin, j);
  }

  lemma {:induction false} PrefixWellOwned(c: Config, s: System, p: nat, j: nat)
    requires ExclusionInv(c, s) && OffersOwned(c, s) && Safe(c.variant) && p < c.n && j <= |s.proposers[p].log|
    ensures WellOwned(s.proposers[p].log[..j])
  {
    if j > 0 {
      PrefixWellOwned(c, s, p, j - 1);
      EntriesLockFree(c, s, p, j - 1);
      EntryOwned(c, s, p, j - 1);
      assert s.proposers[p].log[..j][..j - 1] == s.proposers[p].log[..j - 1];
    }
  }

  /** Release safety: if client ids are used at one server only and every client
      unlocks only what its acknowledged commands still hold, no server ever executes
      an UNLOCK of a resource missing from its lock set; no process ever stops, and
      every lock in every table has at most one holder. */
  lemma {:induction false} UnlockSafety(c: Config, r: Run, home: map<int, nat>, p: nat)
    requires c.n > 0 && Safe(c.variant) && Valid(c, r) && Homed(home, r) && Disciplined(c, r) && p < c.n
    ensures |Final(c, r).proposers| == c.n
    ensures var q := Final(c, r).proposers[p];
      && !q.halted
      && (forall a, x :: x in HeldIn(q.log, a) ==> x in q.lockSet)
      && (forall a, b, x :: x in HeldIn(q.log, a) && x in HeldIn(q.log, b) ==> a == b)
  {
    OffersOwnedAlways(c, r, home);
    ExclusionInvAlways(c, r);
    var s := Final(c, r);
    var q := s.proposers[p];
    assert LogSound(c, s, p);
    PrefixWellOwned(c, s, p, |q.log|);
    assert q.log[..|q.log|] == q.log;
    NeverStops(q);
    WellOwnedReplays(q.log);
  }
}
