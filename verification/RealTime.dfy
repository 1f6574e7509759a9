/** The lock service respects the order that its clients see, across all servers. */
module RealTime {
  import opened Options
  import opened Commands
  import opened Messages
  import opened Proposers
  import opened Cluster
  import opened Ballots
  import opened BallotSteps
  import opened Consensus
  import opened Replicas
  import opened Clients

  /** The commands that a client has submitted, in order. */
  function Submitted(r: Run, client: int): seq<Command> {
    match r
    case Start => []
    case Then(before, act) =>
      Submitted(before, client) + (if act.ClientSubmits? && act.client == client then [act.command] else [])
  }

  /** The command that a server still works on for a client. */
  function Pending(h: Proposer, client: int): seq<Command> {
    if !h.phase.Idle? && h.client == client then [h.command] else []
  }

  lemma AckedToAppend(acks: seq<ClientAck>, a: ClientAck, client: int)
    ensures AckedTo(acks + [a], client)
      == AckedTo(acks, client) + (if a.client == Some(client) then [a.command] else [])
  {
    assert (acks + [a])[..|acks|] == acks;
  }

  lemma ResolvingAnswers(p: Proposer, q: Proposer, client: int)
    requires Resolves(p, q) && !p.phase.Idle?
    ensures AckedTo(q.acks, client) + Pending(q, client) == AckedTo(p.acks, client) + Pending(p, client)
  {
    assert p.Own().client == Some(p.client) && q.Own().client == Some(q.client);
    if p.learnt == p.Own() {
      AckedToAppend(p.acks, ClientAck(p.instance, p.command, p.learnt.client), client);
    }
  }

  lemma SubmissionStep(c: Config, s: System, home: map<int, nat>, act: Action, client: int)
    requires BallotInv(c, s) && Typed(s) && Enabled(c, s, act)
    requires client in home && home[client] < c.n
    requires act.ClientSubmits? ==> act.client in home && home[act.client] == act.p
    ensures |Apply(c, s, act).proposers| == c.n
    ensures var p, q := s.proposers[home[client]], Apply(c, s, act).proposers[home[client]];
      AckedTo(q.acks, client) + Pending(q, client)
      == AckedTo(p.acks, client) + Pending(p, client)
         + (if act.ClientSubmits? && act.client == client then [act.command] else [])
  {
    var h := home[client];
    ReplicaEffect(c, s, act, h);
    var p, q := s.proposers[h], Apply(c, s, act).proposers[h];
    assert p.Own() == Value(Cmd(p.command), Some(p.client)) && q.Own() == Value(Cmd(q.command), Some(q.client));
    if Finishes(c, s, act, h) {
      ResolvingAnswers(p, q, client);
    }
  }

  /** A client's server acknowledges its submissions in order, all but the one that it is
      still working on. */
  lemma {:induction false} AcksFollowSubmissions(c: Config, r: Run, home: map<int, nat>, client: int)
    requires c.n > 0 && Valid(c, r) && Homed(home, r) && client in home && home[client] < c.n
    ensures |Final(c, r).proposers| == c.n
    ensures var h := Final(c, r).proposers[home[client]];
      Submitted(r, client) == AckedTo(h.acks, client) + Pending(h, client)
  {
    match r
    case Start =>
    case Then(before, act) =>
      AcksFollowSubmissions(c, before, home, client);
      ReplicaInvAlways(c, before);
      SubmissionStep(c, Final(c, before), home, act, client);
  }

  lemma {:induction false} LoggedForPrefix(log: seq<LogEntry>, k: nat, client: int)
    requires k <= |log|
    ensures LoggedFor(log[..k], client) <= LoggedFor(log, client)
    decreases |log|
  {
    if k == |log| {
      assert log[..k] == log;
    } else {
      var before := log[..|log| - 1];
      LoggedForPrefix(before, k, client);
      assert before[..k] == log[..k];
    }
  }

  /** A stretch of a log in which only the first entry can be the client's. */
  lemma {:induction false} StretchFor(log: seq<LogEntry>, i: nat, k: nat, client: int)
    requires i < k <= |log|
    requires forall j :: i < j < k ==> log[j].value.client != Some(client)
    ensures LoggedFor(log[..k], client)
         == LoggedFor(log[..i], client) + (if log[i].value.client
                                           == Some(client) then [CommandOf(log[i].value)] else [])
    decreases k
  {
    LoggedForAppend(log[..k - 1], log[k - 1], client);
    assert log[..k - 1] + [log[k - 1]] == log[..k];
    if i < k - 1 {
      StretchFor(log, i, k - 1, client);
    }
  }

  lemma EntryFromHome(c: Config, s: System, home: map<int, nat>, l: nat, j: nat)
    requires ReplicaInv(c, s) && OnceInv(c, s, home) && l < c.n && j < |s.proposers[l].log|
    ensures FromHome(c, s, home, j, s.proposers[l].log[j].value)
  {
    assert LogSound(c, s, l);
    var v := s.proposers[l].log[j].value;
    var k: nat :| ChosenAt(c, s, j, k, v);
    ChosenWasOffered(c, s, j, k, v);
    var m :| m in s.requests && m.kind.ACCEPT? && m.instance == j && ValueOf(m) == v;
    assert FromHome(c, s, home, m.instance, ValueOf(m));
  }

  /** A log that is ahead of that of a client's server holds of that client, behind the
      common part, at most the command that its server is working on. */
  lemma AheadHoldsPending(c: Config, s: System, home: map<int, nat>, client: int, l: nat)
    requires ReplicaInv(c, s) && OnceInv(c, s, home) && Safe(c.variant)
    requires client in home && home[client] < c.n && l < c.n
    requires |s.proposers[home[client]].log| < |s.proposers[l].log|
    ensures var h, log := s.proposers[home[client]], s.proposers[l].log;
      || LoggedFor(log, client) == LoggedFor(h.log, client)
      || LoggedFor(log, client) == LoggedFor(h.log, client) + Pending(h, client)
  {
    var h, log := s.proposers[home[client]], s.proposers[l].log;
    var i := |h.log|;
    assert LogSound(c, s, home[client]);
    forall j | i <= j < |log| && log[j].value.client == Some(client)
      ensures j == i && Pending(h, client) == [CommandOf(log[i].value)]
    {
      EntryFromHome(c, s, home, l, j);
    }
    LogsAgree(c, s, home[client], l, i);
    assert h.log[..i] == h.log && log[..|log|] == log;
    StretchFor(log, i, |log|, client);
  }

  /** Every log holds, of each client, the first so many commands that it submitted. */
  lemma {:induction false} LogsFollowSubmissions(c: Config, r: Run, home: map<int, nat>, client: int, l: nat)
    requires c.n > 0 && Safe(c.variant) && Valid(c, r) && Homed(home, r)
    requires client in home && home[client] < c.n && l < c.n
    ensures |Final(c, r).proposers| == c.n
    ensures LoggedFor(Final(c, r).proposers[l].log, client) <= Submitted(r, client)
  {
    OnceInvAlways(c, r, home);
    AcksFollowSubmissions(c, r, home, client);
    ExactlyOnceInOrder(c, r, home, client);
    var s := Final(c, r);
    var h, log := s.proposers[home[client]], s.proposers[l].log;
    if |log| <= |h.log| {
      LogsAgree(c, s, home[client], l, |log|);
      assert log[..|log|] == log;
      LoggedForPrefix(h.log, |log|, client);
    } else {
      AheadHoldsPending(c, s, home, client, l);
    }
  }

  lemma LogKeptByStep(c: Config, s: System, act: Action, p: nat)
    requires BallotInv(c, s) && Typed(s) && Enabled(c, s, act) && p < c.n
    ensures |Apply(c, s, act).proposers| == c.n
    ensures s.proposers[p].log <= Apply(c, s, act).proposers[p].log
  {
    var log := s.proposers[p].log;
    LogsGrow(c, s, act, p, |log|);
    assert log[..|log|] == log;
  }

  lemma {:induction false} LogsKept(c: Config, r1: Run, r2: Run, home: map<int, nat>, p: nat)
    requires c.n > 0 && Valid(c, r2) && Homed(home, r2) && Extends(r1, r2) && p < c.n
    ensures Valid(c, r1) && Homed(home, r1)
    ensures p < |Final(c, r1).proposers| && p < |Final(c, r2).proposers|
    ensures Final(c, r1).proposers[p].log <= Final(c, r2).proposers[p].log
    decreases r2
  {
    if r1 == r2 {
      BallotInvAlways(c, r1);
    } else {
      LogsKept(c, r1, r2.before, home, p);
      ReplicaInvAlways(c, r2.before);
      LogKeptByStep(c, Final(c, r2.before), r2.act, p);
    }
  }

  lemma {:induction false} AckIsLogged(home: map<int, nat>, p: nat, log: seq<LogEntry>, a: ClientAck)
    requires a in AcksFor(home, p, log) && forall j :: 0 <= j < |log| ==> log[j].instance == j
    ensures a.instance < |log|
  {
    if a in AcksFor(home, p, log[..|log| - 1]) {
      AckIsLogged(home, p, log[..|log| - 1], a);
    }
  }

  lemma EntryCounts(log: seq<LogEntry>, j: nat, client: int)
    requires j < |log| && log[j].value.client == Some(client)
    ensures |LoggedFor(log[..j], client)| < |LoggedFor(log, client)|
  {
    LoggedForPrefix(log, j + 1, client);
    LoggedForAppend(log[..j], log[j], client);
    assert log[..j] + [log[j]] == log[..j + 1];
  }

  /** An entry in a log at some moment carries a command submitted by then. */
  lemma EarlySubmission(c: Config, r: Run, home: map<int, nat>, p: nat, j: nat, client: int)
    requires c.n > 0 && Safe(c.variant) && Valid(c, r) && Homed(home, r)
    requires client in home && home[client] < c.n && p < c.n
    requires p < |Final(c, r).proposers| && j < |Final(c, r).proposers[p].log|
    requires Final(c, r).proposers[p].log[j].value.client == Some(client)
    ensures |LoggedFor(Final(c, r).proposers[p].log[..j], client)| < |Submitted(r, client)|
  {
    LogsFollowSubmissions(c, r, home, client, p);
    EntryCounts(Final(c, r).proposers[p].log, j, client);
  }

  lemma AckedIsInLog(c: Config, r: Run, home: map<int, nat>, p: nat, a: ClientAck)
    requires c.n > 0 && Valid(c, r) && Homed(home, r) && p < c.n
    requires p < |Final(c, r).proposers| && a in Final(c, r).proposers[p].acks
    ensures a.instance < |Final(c, r).proposers[p].log|
  {
    OnceInvAlways(c, r, home);
    assert LogSound(c, Final(c, r), p);
    AckIsLogged(home, p, Final(c, r).proposers[p].log, a);
  }

  /** Where two logs of two moments both have an entry, they agree up to it. */
  lemma EarlyAndLate(c: Config, r1: Run, r2: Run, home: map<int, nat>, p: nat, l: nat, j: nat)
    requires c.n > 0 && Safe(c.variant) && Valid(c, r2) && Homed(home, r2) && Extends(r1, r2) && Valid(c, r1)
    requires p < c.n && p < |Final(c, r1).proposers| && j < |Final(c, r1).proposers[p].log|
    requires l < c.n && l < |Final(c, r2).proposers| && j < |Final(c, r2).proposers[l].log|
    ensures Final(c, r1).proposers[p].log[..j + 1] == Final(c, r2).proposers[l].log[..j + 1]
    ensures Final(c, r1).proposers[p].log[..j] == Final(c, r2).proposers[l].log[..j]
    ensures Final(c, r1).proposers[p].log[j] == Final(c, r2).proposers[l].log[j]
  {
    LogsKept(c, r1, r2, home, p);
    ReplicaInvAlways(c, r2);
    LogsAgree(c, Final(c, r2), p, l, j + 1);
    PrefixOfPrefix(Final(c, r1).proposers[p].log, Final(c, r2).proposers[p].log, Final(c, r2).proposers[l].log, j);
  }

  lemma PrefixOfPrefix(early: seq<LogEntry>, same: seq<LogEntry>, late: seq<LogEntry>, j: nat)
    requires early <= same && j < |early| && j < |late| && same[..j + 1] == late[..j + 1]
    ensures early[..j + 1] == late[..j + 1] && early[..j] == late[..j] && early[j] == late[j]
  {
    assert early[..j + 1] == same[..j + 1];
    assert early[..j + 1][..j] == early[..j] && late[..j + 1][..j] == late[..j];
    assert early[..j + 1][j] == early[j] && late[..j + 1][j] == late[j];
  }

  /** Real-time order: what any server has acknowledged at some moment has a smaller
      instance, in every log, than any command submitted at any server later. Entry j of
      the log carries the client's submission number |LoggedFor(log[..j], client)|, so the
      last precondition says that it was submitted after that moment. */
  lemma {:induction false} RealTimeOrder(c: Config, r1: Run, r2: Run, home: map<int, nat>,
                                         p: nat, a: ClientAck, l: nat, j: nat, client: int)
    requires c.n > 0 && Safe(c.variant) && Valid(c, r2) && Homed(home, r2) && Extends(r1, r2)
    requires p < c.n && Valid(c, r1) && p < |Final(c, r1).proposers| && a in Final(c, r1).proposers[p].acks
    requires client in home && home[client] < c.n && l < c.n
    requires l < |Final(c, r2).proposers| && j < |Final(c, r2).proposers[l].log|
    requires Final(c, r2).proposers[l].log[j].value.client == Some(client)
    requires |LoggedFor(Final(c, r2).proposers[l].log[..j], client)| >= |Submitted(r1, client)|
    ensures a.instance < j
  {
    LogsKept(c, r1, r2, home, p);
    AckedIsInLog(c, r1, home, p, a);
    if j < |Final(c, r1).proposers[p].log| {
      EarlyAndLate(c, r1, r2, home, p, l, j);
      EarlySubmission(c, r1, home, p, j, client);
    }
  }
}
