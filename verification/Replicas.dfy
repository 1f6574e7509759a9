/** The replicated lock table: logs, lock sets, clients. */
module Replicas {
  import opened Options
  import opened Commands
  import opened Messages
  import opened Proposers
  import opened Cluster
  import opened Ballots
  import opened BallotSteps
  import opened Quorums
  import opened Consensus

  // ---------------------------------------------------------------------
  // Quorum counting
  // ---------------------------------------------------------------------

  /** A proposer leaves the ACCEPTING loop with a majority behind it. */
  ghost predicate Finishes(c: Config, s: System, act: Action, p: nat)
    requires Shape(c, s) && p < c.n
  {
    && act.ProposerReceives? && act.p == p
    && InPhase(s, p, Accepting) && Packet(p, act.reply) in s.replies
    && Majority(c.n, AbsorbAcceptReply(s.proposers[p], act.reply).responses)
    && !AbsorbAcceptReply(s.proposers[p], act.reply).halted
  }

  /** More than n/2 different servers really accepted the learnt value under the
      current number, however often replies were duplicated, and the client id in
      the last reply is the learnt client. */
  lemma {:induction false} CountingIsSound(c: Config, s: System, act: Action, p: nat)
    requires BallotInv(c, s) && p < c.n && Finishes(c, s, act, p)
    ensures var q := s.proposers[p];
      && ChosenAt(c, s, q.instance, q.num, q.learnt)
      && act.reply.client == q.learnt.client && q.learnt.client.Some?
  {
    var p0, m := s.proposers[p], act.reply;
    var q := AbsorbAcceptReply(p0, m);
    AbsorbCountsVotes(p0, m);
    forall x | x in q.counted
      ensures x.origin < c.n && x == AcceptAckMsg(p0.num, p0.instance, p0.learnt, x.origin)
      ensures Voted(c.n, s.replies, x.origin, p0.instance, p0.num, p0.learnt)
    {
      assert Packet(p, x) in s.replies && VoteRecorded(c, s, Packet(p, x));
      assert AcceptMsg(p0.num, p0.instance, ValueOf(x), p) in s.requests;
      assert AcceptMsg(p0.num, p0.instance, p0.learnt, p) in s.requests;
    }
    DistinctOrigins(q.counted);
    assert m in q.counted;
    assert Elects(c, s, p0.instance, p0.num, p0.learnt, Origins(q.counted));
  }

  // ---------------------------------------------------------------------
  // What is in a value, and when a proposer stops
  // ---------------------------------------------------------------------

  predicate IsCommand(v: Value) {
    v.payload.Cmd? && v.client.Some?
  }

  /** Only commands with a client are ever offered or learnt. */
  ghost predicate Typed(s: System) {
    && (forall m :: m in s.requests && m.kind.ACCEPT? ==> IsCommand(ValueOf(m)))
    && (forall p :: 0 <= p < |s.proposers| ==> IsCommand(s.proposers[p].learnt))
  }

  /** A value that is not the proposer's own was offered before at its instance. */
  ghost predicate Backed(s: System, i: nat, v: Value) {
    exists m :: m in s.requests && m.kind.ACCEPT? && m.instance == i && ValueOf(m) == v
  }

  ghost predicate LearntBacked(s: System) {
    forall p :: 0 <= p < |s.proposers| && s.proposers[p].learnt != s.proposers[p].Own() ==>
      Backed(s, s.proposers[p].instance, s.proposers[p].learnt)
  }

  /** The value of a counted NACK was offered at the same instance. */
  lemma NackBacked(c: Config, s: System, act: Action, p: nat)
    requires BallotInv(c, s) && p < c.n && Decides(c, s, act, p)
    ensures var q := AbsorbPrepareReply(c.variant, c.n, s.proposers[p], act.reply);
      q.nacks != [] ==> Backed(s, q.instance, ValueOf(q.nacks[act.pick]))
  {
    DecisionFacts(c, s, act, p);
    var q := AbsorbPrepareReply(c.variant, c.n, s.proposers[p], act.reply);
    if q.nacks != [] {
      var top := q.nacks[act.pick];
      assert top in q.nacks && CountsAsPromise(c.variant, q, top);
      assert PromiseRecorded(c, s, Packet(p, top));
      var offer := AcceptMsg(top.rproposal, q.instance, ValueOf(top), Owner(c.n, top.rproposal));
      assert offer in s.requests && ValueOf(offer) == ValueOf(top);
    }
  }

  /** Neither the log nor the lock table changes, nor does the process stop. */
  predicate SameReplica(p: Proposer, q: Proposer) {
    && q.instance == p.instance && q.log == p.log && q.lockSet == p.lockSet
    && q.resolutions == p.resolutions && q.acks == p.acks && q.halted == p.halted
  }

  /** What completing an accept round does to the replica. */
  predicate Resolves(p: Proposer, q: Proposer) {
    && IsCommand(p.learnt)
    && q.Own() == p.Own()
    && q.log == p.log + [LogEntry(p.instance, p.learnt)]
    && q.resolutions == p.resolutions[p.instance := p.learnt]
    && q.acks == (if p.learnt == p.Own() then p.acks + [ClientAck(p.instance, p.command, p.learnt.client)] else p.acks)
    && (if p.learnt == p.Own() then q.phase.Idle? else q.phase.Ready?)
    && match ExecuteCommand(p.lockSet, p.learnt.payload.command)
       case Some(lockSet) => q.lockSet == lockSet && q.instance == p.instance + 1 && q.learnt == q.Own() && !q.halted
       case None => q.lockSet == p.lockSet && q.instance == p.instance && q.learnt == p.learnt && q.halted
  }

  /** How `learnt` and the served command move while nothing is resolved. */
  ghost predicate Learns(c: Config, s: System, act: Action, p: nat, q: Proposer)
    requires Shape(c, s) && p < c.n
  {
    var before := s.proposers[p];
    || (act.ClientSubmits? && act.p == p && before.phase.Idle? && !before.halted
        && q == Submit(before, act.command, act.client))
    || (&& q.Own() == before.Own() && (q.phase.Idle? <==> before.phase.Idle?)
        && (|| q.learnt == before.learnt
            || (&& Decides(c, s, act, p)
                && var a := AbsorbPrepareReply(c.variant, c.n, before, act.reply);
                a.nacks != [] && q.learnt == ValueOf(a.nacks[act.pick]))))
  }

  lemma FinishResolves(n: nat, p: Proposer, m: Message)
    requires IsCommand(p.learnt) && m.client == p.learnt.client && !p.halted
    ensures Resolves(p, Finish(n, p, m))
  {
  }

  ghost predicate QuietOn(c: Config, s: System, act: Action, p: nat, q: Proposer)
    requires Shape(c, s) && p < c.n
  {
    SameReplica(s.proposers[p], q) && Learns(c, s, act, p, q)
  }

  /** Steps of other processes, and of p outside its waiting loops. */
  lemma QuietStep(c: Config, s: System, act: Action, p: nat)
    requires Shape(c, s) && Typed(s) && Enabled(c, s, act) && p < c.n
    requires !(act.ProposerReceives? && act.p == p)
    ensures |Apply(c, s, act).proposers| == c.n
    ensures QuietOn(c, s, act, p, Apply(c, s, act).proposers[p])
  {
  }

  lemma PrepareReplyIsQuiet(c: Config, s: System, act: Action, p: nat)
    requires Shape(c, s) && RepliesOwned(c, s) && ProposersSound(c, s) && p < c.n
    requires act.ProposerReceives? && act.p == p && Enabled(c, s, act) && s.proposers[p].phase.Proposing?
    ensures QuietOn(c, s, act, p, Apply(c, s, act).proposers[p])
  {
    var before := s.proposers[p];
    assert Packet(p, act.reply) in s.replies;
    AbsorbCases(c.variant, c.n, before, act.reply);
    if Decides(c, s, act, p) {
      DecisionFacts(c, s, act, p);
    }
  }

  lemma AcceptReplyEffect(c: Config, s: System, act: Action, p: nat)
    requires BallotInv(c, s) && p < c.n && IsCommand(s.proposers[p].learnt)
    requires act.ProposerReceives? && act.p == p && Enabled(c, s, act) && s.proposers[p].phase.Accepting?
    ensures var before, after := s.proposers[p], OnAcceptReply(c.n, s.proposers[p], act.reply);
      if Finishes(c, s, act, p) then Resolves(before, after) else QuietOn(c, s, act, p, after)
  {
    var before := s.proposers[p];
    var q := AbsorbAcceptReply(before, act.reply);
    assert Packet(p, act.reply) in s.replies;
    AbsorbCountsVotes(before, act.reply);
    assert SameReplica(before, q) && q.Own() == before.Own() && q.learnt == before.learnt;
    if Finishes(c, s, act, p) {
      CountingIsSound(c, s, act, p);
      FinishResolves(c.n, q, act.reply);
    }
  }

  lemma ReplicaEffect(c: Config, s: System, act: Action, p: nat)
    requires BallotInv(c, s) && Typed(s) && Enabled(c, s, act) && p < c.n
    ensures |Apply(c, s, act).proposers| == c.n
    ensures var before, after := s.proposers[p], Apply(c, s, act).proposers[p];
      if Finishes(c, s, act, p) then Resolves(before, after) else QuietOn(c, s, act, p, after)
  {
    if act.ProposerReceives? && act.p == p {
      if s.proposers[p].phase.Proposing? {
        PrepareReplyIsQuiet(c, s, act, p);
      } else {
        AcceptReplyEffect(c, s, act, p);
      }
    } else {
      QuietStep(c, s, act, p);
    }
  }

  lemma TypedStep(c: Config, s: System, act: Action)
    requires BallotInv(c, s) && Typed(s) && LearntBacked(s) && Enabled(c, s, act)
    ensures Typed(Apply(c, s, act)) && LearntBacked(Apply(c, s, act))
  {
    ShapeStep(c, s, act);
    var t := Apply(c, s, act);
    forall m | m in t.requests && m.kind.ACCEPT?
      ensures IsCommand(ValueOf(m))
    {
      if m !in s.requests {
        NewAcceptRequest(c, s, act, m);
      }
    }
    forall p | 0 <= p < c.n
      ensures IsCommand(t.proposers[p].learnt)
      ensures t.proposers[p].learnt != t.proposers[p].Own() ==>
        Backed(t, t.proposers[p].instance, t.proposers[p].learnt)
    {
      ReplicaEffect(c, s, act, p);
      if Decides(c, s, act, p) {
        DecisionFacts(c, s, act, p);
        NackBacked(c, s, act, p);
      }
    }
  }

  // ---------------------------------------------------------------------
  // Logs and lock tables
  // ---------------------------------------------------------------------

  function CommandOf(v: Value): Command {
    if v.payload.Cmd? then v.payload.command else Command(NONE, 0)
  }

  function CommandsOf(log: seq<LogEntry>): seq<Command> {
    seq(|log|, (i: nat) requires i < |log| => CommandOf(log[i].value))
  }

  /** The lock table that a log replays to. */
  function LockTable(log: seq<LogEntry>): Option<seq<int>> {
    Replay(CommandsOf(log))
  }

  lemma LockTableAppend(log: seq<LogEntry>, e: LogEntry)
    ensures LockTable(log + [e]) ==
      match LockTable(log)
      case None => None
      case Some(lockSet) => ExecuteCommand(lockSet, CommandOf(e.value))
  {
    assert CommandsOf(log + [e]) == CommandsOf(log) + [CommandOf(e.value)];
    ReplayAppend(CommandsOf(log), CommandOf(e.value));
  }

  /** A server's log is gap-free, the recorded resolutions are that log, and the lock
      set is what the executed part of the log replays to. A process stops only on a
      command that its lock table refuses. */
  ghost predicate LogCoherent(q: Proposer) {
    && |q.log| == q.instance + (if q.halted then 1 else 0)
    && (forall j :: 0 <= j < |q.log| ==> q.log[j].instance == j)
    && (forall j: nat :: j in q.resolutions <==> j < |q.log|)
    && (forall j :: 0 <= j < |q.log| ==> q.resolutions[j] == q.log[j].value)
    && LockTable(q.log[..q.instance]) == Some(q.lockSet)
    && (q.halted ==> ExecuteCommand(q.lockSet, CommandOf(q.log[q.instance].value)).None?)
  }

  /** The table part: the executed prefix of the log replays to the new lock set. */
  lemma ResolvingKeepsTable(p: Proposer, q: Proposer)
    requires LogCoherent(p) && !p.halted && Resolves(p, q)
    ensures q.instance <= |q.log| && LockTable(q.log[..q.instance]) == Some(q.lockSet)
    ensures q.halted ==> q.instance < |q.log| && ExecuteCommand(q.lockSet, CommandOf(q.log[q.instance].value)).None?
  {
    LockTableAppend(p.log, LogEntry(p.instance, p.learnt));
    assert p.log[..p.instance] == p.log;
    assert q.log[..p.instance] == p.log;
    assert q.log[..|q.log|] == q.log;
  }

  lemma ResolvingKeepsLog(p: Proposer, q: Proposer)
    requires LogCoherent(p) && !p.halted && Resolves(p, q)
    ensures LogCoherent(q)
  {
    ResolvingKeepsTable(p, q);
  }

  /** The log holds chosen commands and is coherent with the rest of the server. */
  ghost predicate LogSound(c: Config, s: System, p: nat)
    requires Shape(c, s) && p < c.n
  {
    && LogCoherent(s.proposers[p])
    && forall j :: 0 <= j < |s.proposers[p].log| ==>
         IsCommand(s.proposers[p].log[j].value) && Chosen(c, s, j, s.proposers[p].log[j].value)
  }

  ghost predicate ReplicaInv(c: Config, s: System) {
    && ConsensusInv(c, s)
    && Typed(s) && LearntBacked(s)
    && (forall p :: 0 <= p < c.n ==> LogSound(c, s, p))
  }

  lemma ChosenStable(c: Config, s: System, act: Action, i: nat, v: Value)
    requires c.n > 0 && Shape(c, s) && Enabled(c, s, act) && Chosen(c, s, i, v)
    ensures Chosen(c, Apply(c, s, act), i, v)
  {
    ShapeStep(c, s, act);
    var k: nat :| ChosenAt(c, s, i, k, v);
    var q :| Elects(c, s, i, k, v, q);
    assert Elects(c, Apply(c, s, act), i, k, v, q);
    assert ChosenAt(c, Apply(c, s, act), i, k, v);
  }

  lemma LogSoundStep(c: Config, s: System, act: Action, p: nat)
    requires BallotInv(c, s) && Typed(s) && Enabled(c, s, act) && p < c.n && LogSound(c, s, p)
    ensures Shape(c, Apply(c, s, act)) && LogSound(c, Apply(c, s, act), p)
  {
    ShapeStep(c, s, act);
    ReplicaEffect(c, s, act, p);
    var t := Apply(c, s, act);
    var before, after := s.proposers[p], t.proposers[p];
    if Finishes(c, s, act, p) {
      CountingIsSound(c, s, act, p);
      ResolvingKeepsLog(before, after);
    }
    forall j | 0 <= j < |after.log|
      ensures IsCommand(after.log[j].value) && Chosen(c, t, j, after.log[j].value)
    {
      if j == |before.log| {
        assert Chosen(c, s, j, before.learnt);
      }
      ChosenStable(c, s, act, j, after.log[j].value);
    }
  }

  lemma {:induction false} ReplicaInvAlways(c: Config, r: Run)
    requires c.n > 0 && Valid(c, r)
    ensures ReplicaInv(c, Final(c, r))
  {
    match r
    case Start =>
      ConsensusInvAlways(c, r);
      forall p | 0 <= p < c.n
        ensures LogSound(c, Init(c), p)
      {
        var log := Init(c).proposers[p].log;
        assert log[..0] == log && CommandsOf(log) == [];
      }
    case Then(before, act) =>
      ReplicaInvAlways(c, before);
      ReplicaStep(c, Final(c, before), act);
  }

  lemma ReplicaStep(c: Config, s: System, act: Action)
    requires ReplicaInv(c, s) && Enabled(c, s, act)
    ensures ReplicaInv(c, Apply(c, s, act))
  {
    ConsensusStep(c, s, act);
    TypedStep(c, s, act);
    forall p | 0 <= p < c.n
      ensures LogSound(c, Apply(c, s, act), p)
    {
      LogSoundStep(c, s, act, p);
    }
  }

  /** Two servers that resolved the same instance resolved it alike. */
  lemma LogsAgree(c: Config, s: System, p: nat, q: nat, i: nat)
    requires ReplicaInv(c, s) && Safe(c.variant) && p < c.n && q < c.n
    requires i <= |s.proposers[p].log| && i <= |s.proposers[q].log|
    ensures s.proposers[p].log[..i] == s.proposers[q].log[..i]
  {
    assert LogSound(c, s, p) && LogSound(c, s, q);
    forall j | 0 <= j < i
      ensures s.proposers[p].log[j] == s.proposers[q].log[j]
    {
      ChosenIsUnique(c, s, j, s.proposers[p].log[j].value, s.proposers[q].log[j].value);
    }
  }

  /** Replica consistency: in every run, of any two logs one is a prefix of the
      other, each log is numbered without gaps and equals the recorded resolutions,
      each lock set is the replay of the executed log, and so servers that stand at
      the same instance hold the same locks in the same order. */
  lemma {:induction false} ReplicaConsistency(c: Config, r: Run, p: nat, q: nat)
    requires c.n > 0 && Safe(c.variant) && Valid(c, r) && p < c.n && q < c.n
    ensures var s := Final(c, r);
      && |s.proposers| == c.n
      && var a, b := s.proposers[p], s.proposers[q];
      && (a.log <= b.log || b.log <= a.log)
      && (forall j :: 0 <= j < |a.log| ==>
          a.log[j].instance == j && j in a.resolutions && a.resolutions[j] == a.log[j].value)
      && a.instance <= |a.log| && LockTable(a.log[..a.instance]) == Some(a.lockSet)
      && (a.instance == b.instance ==> a.lockSet == b.lockSet)
  {
    ReplicaInvAlways(c, r);
    var s := Final(c, r);
    assert LogSound(c, s, p) && LogSound(c, s, q);
    var a, b := s.proposers[p], s.proposers[q];
    var i := if |a.log| <= |b.log| then |a.log| else |b.log|;
    LogsAgree(c, s, p, q, i);
    assert a.log[..|a.log|] == a.log && b.log[..|b.log|] == b.log;
    if a.instance == b.instance {
      LogsAgree(c, s, p, q, a.instance);
    }
  }

  // ---------------------------------------------------------------------
  // Mutual exclusion
  // ---------------------------------------------------------------------

  /** A command that may follow a log: it does not lock what the log leaves locked. */
  predicate LocksFree(log: seq<LogEntry>, v: Value) {
    CommandOf(v).kind.LOCK? ==> LockTable(log).Some? && CommandOf(v).resource !in LockTable(log).value
  }

  /** Whatever is offered at an instance was checked against the table at that instance. */
  ghost predicate OffersChecked(c: Config, s: System)
    requires Shape(c, s)
  {
    && (forall m :: m in s.requests && m.kind.ACCEPT? ==>
          && m.origin < c.n && m.instance <= |s.proposers[m.origin].log|
          && LocksFree(s.proposers[m.origin].log[..m.instance], ValueOf(m)))
    && (forall p :: 0 <= p < c.n && InPhase(s, p, Accept) ==>
          LocksFree(s.proposers[p].log, s.proposers[p].learnt))
  }

  /** A backed value was checked by the server that offered it, on the same log. */
  lemma BackedIsChecked(c: Config, s: System, p: nat, v: Value)
    requires ReplicaInv(c, s) && OffersChecked(c, s) && Safe(c.variant) && p < c.n && !s.proposers[p].halted
    requires Backed(s, s.proposers[p].instance, v)
    ensures LocksFree(s.proposers[p].log, v)
  {
    var i := s.proposers[p].instance;
    var m :| m in s.requests && m.kind.ACCEPT? && m.instance == i && ValueOf(m) == v;
    assert LogSound(c, s, p);
    LogsAgree(c, s, p, m.origin, i);
    assert s.proposers[p].log[..i] == s.proposers[p].log;
  }

  lemma DecisionIsChecked(c: Config, s: System, act: Action, p: nat)
    requires ReplicaInv(c, s) && OffersChecked(c, s) && Safe(c.variant) && p < c.n && Decides(c, s, act, p)
    ensures var d := Decide(c.n, AbsorbPrepareReply(c.variant, c.n, s.proposers[p], act.reply), act.pick);
      d.phase.Accept? ==> LocksFree(s.proposers[p].log, d.learnt)
  {
    var before := s.proposers[p];
    DecisionFacts(c, s, act, p);
    NackBacked(c, s, act, p);
    AbsorbCases(c.variant, c.n, before, act.reply);
    var q := AbsorbPrepareReply(c.variant, c.n, before, act.reply);
    var learnt := if q.nacks == [] then q.learnt else ValueOf(q.nacks[act.pick]);
    assert q.Own() == before.Own() && q.lockSet == before.lockSet;
    if learnt == q.Own() {
      assert LogSound(c, s, p);
      assert before.log[..before.instance] == before.log;
    } else {
      BackedIsChecked(c, s, p, learnt);
    }
  }

  lemma LogsGrow(c: Config, s: System, act: Action, p: nat, i: nat)
    requires BallotInv(c, s) && Typed(s) && Enabled(c, s, act) && p < c.n && i <= |s.proposers[p].log|
    ensures |Apply(c, s, act).proposers| == c.n
    ensures var log := Apply(c, s, act).proposers[p].log;
      i <= |log| && log[..i] == s.proposers[p].log[..i]
  {
    ReplicaEffect(c, s, act, p);
  }

  lemma OffersCheckedStep(c: Config, s: System, act: Action)
    requires ReplicaInv(c, s) && OffersChecked(c, s) && Safe(c.variant) && Enabled(c, s, act)
    ensures Shape(c, Apply(c, s, act)) && OffersChecked(c, Apply(c, s, act))
  {
    ShapeStep(c, s, act);
    var t := Apply(c, s, act);
    forall m | m in t.requests && m.kind.ACCEPT?
      ensures && m.origin < c.n && m.instance <= |t.proposers[m.origin].log|
              && LocksFree(t.proposers[m.origin].log[..m.instance], ValueOf(m))
    {
      if m in s.requests {
        LogsGrow(c, s, act, m.origin, m.instance);
      } else {
        NewAcceptRequest(c, s, act, m);
        var before := s.proposers[act.p];
        assert LogSound(c, s, act.p);
        assert before.log[..before.instance] == before.log == t.proposers[act.p].log;
      }
    }
    forall p | 0 <= p < c.n && InPhase(t, p, Accept)
      ensures LocksFree(t.proposers[p].log, t.proposers[p].learnt)
    {
      ReplicaEffect(c, s, act, p);
      EntersAccept(c, s, act, p);
      if !s.proposers[p].phase.Accept? {
        DecisionIsChecked(c, s, act, p);
      }
    }
  }

  ghost predicate ExclusionInv(c: Config, s: System) {
    ReplicaInv(c, s) && OffersChecked(c, s)
  }

  lemma {:induction false} ExclusionInvAlways(c: Config, r: Run)
    requires c.n > 0 && Safe(c.variant) && Valid(c, r)
    ensures ExclusionInv(c, Final(c, r))
  {
    match r
    case Start =>
      ReplicaInvAlways(c, r);
    case Then(before, act) =>
      ExclusionInvAlways(c, before);
      ReplicaStep(c, Final(c, before), act);
      OffersCheckedStep(c, Final(c, before), act);
  }

  /** Every entry of every log was free to be locked where it stands. */
  lemma EntriesLockFree(c: Config, s: System, p: nat, j: nat)
    requires ExclusionInv(c, s) && Safe(c.variant) && p < c.n && j < |s.proposers[p].log|
    ensures LocksFree(s.proposers[p].log[..j], s.proposers[p].log[j].value)
  {
    assert LogSound(c, s, p);
    var v := s.proposers[p].log[j].value;
    assert Chosen(c, s, j, v);
    var k: nat :| ChosenAt(c, s, j, k, v);
    ChosenWasOffered(c, s, j, k, v);
    var m := AcceptMsg(k, j, v, Owner(c.n, k));
    assert m in s.requests && ValueOf(m) == v;
    LogsAgree(c, s, p, m.origin, j);
  }

  /** Mutual exclusion: in every run of any number of servers and clients, no server
      executes a LOCK of a resource in its lock set. Its assertion never fails: a
      process that stopped did so on an UNLOCK of a free resource or a non-command. */
  lemma {:induction false} MutualExclusion(c: Config, r: Run, p: nat)
    requires c.n > 0 && Safe(c.variant) && Valid(c, r) && p < c.n
    ensures var s := Final(c, r); |s.proposers| == c.n
    ensures var q := Final(c, r).proposers[p];
      && (forall j :: 0 <= j < |q.log| ==> LocksFree(q.log[..j], q.log[j].value))
      && (q.halted ==>
            && q.instance < |q.log|
            && var last := CommandOf(q.log[q.instance].value);
            last.kind.NONE? || (last.kind.UNLOCK? && last.resource !in q.lockSet))
  {
    ExclusionInvAlways(c, r);
    var s := Final(c, r);
    var q := s.proposers[p];
    forall j | 0 <= j < |q.log|
      ensures LocksFree(q.log[..j], q.log[j].value)
    {
      EntriesLockFree(c, s, p, j);
    }
    assert LogSound(c, s, p);
    if q.halted {
      ExecuteFailsExactlyWhen(CommandsOf(q.log[..q.instance]), CommandOf(q.log[q.instance].value));
      EntriesLockFree(c, s, p, q.instance);
    }
  }
}
