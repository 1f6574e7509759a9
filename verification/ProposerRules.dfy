/** How a proposer moves, told by what it has taken, counted and learnt. */
module ProposerRules {
  import opened Options
  import opened Commands
  import opened Messages
  import opened Proposers
  import opened Cluster
  import opened Ballots
  import opened BallotSteps
  import opened Replicas

  // ---------------------------------------------------------------------
  // Waiting for promises
  // ---------------------------------------------------------------------

  /** A reply that ends the round at once. */
  predicate Breaks(v: Variant, m: Message) {
    v.abortOnNone && m.client.None?
  }

  /** A reply that is counted as a promise. */
  predicate NewPromise(v: Variant, p: Proposer, m: Message) {
    m !in p.seen && CountsAsPromise(v, p, m)
  }

  /** More than half of n. */
  predicate MoreThanHalf(n: nat, k: nat) {
    2 * k > n
  }

  predicate CompletesPromises(c: Config, p: Proposer, m: Message) {
    NewPromise(c.variant, p, m) && MoreThanHalf(c.n, |p.counted| + 1)
  }

  /** The refusals among some replies. */
  function Refusals(ms: set<Message>): set<Message> {
    set m | m in ms && m.kind.PREPARE_NACK?
  }

  /** No refusal ranks above top. */
  ghost predicate NoneAbove(v: Variant, nacks: set<Message>, top: Message) {
    forall m :: m in nacks ==>
      if v.keyOnAccepted then m.rproposal <= top.rproposal else m.proposal <= top.proposal
  }

  /** What a proposer holds after hearing the refusals: the value of a highest one, or
      what it held before if there is none. */
  ghost predicate Taught(v: Variant, nacks: set<Message>, before: Value, after: Value) {
    if nacks == {} then after == before
    else exists top :: top in nacks && NoneAbove(v, nacks, top) && after == ValueOf(top)
  }

  /** A proposer that stands at its own LOCK while the resource is locked. */
  predicate WaitsForUnlock(p: Proposer) {
    && p.learnt == Value(Cmd(p.command), Some(p.client))
    && p.command.kind.LOCK? && p.command.resource in p.lockSet
  }

  /** How a finished promise round leaves the proposer: it learns, then goes on to ACCEPT
      under the same number, or back to READY under the next one. */
  ghost predicate DecidesByRule(c: Config, p: Proposer, nacks: set<Message>, q: Proposer) {
    && Taught(c.variant, nacks, p.learnt, q.learnt)
    && (WaitsForUnlock(q) <==> q.phase.Ready? && q.num == p.num + c.n)
    && (!WaitsForUnlock(q) <==> q.phase.Accept? && q.num == p.num)
    && q == p.(phase := q.phase, num := q.num, learnt := q.learnt, seen := q.seen,
               counted := q.counted, responses := q.responses, nacks := q.nacks)
  }

  /** The books of a proposer that waits for promises. */
  ghost predicate KeepsCount(v: Variant, p: Proposer) {
    PromisesCounted(v, p) && p.phase.Proposing? && !p.halted
  }

  lemma NacksAreRefusals(v: Variant, p: Proposer)
    requires KeepsCount(v, p)
    ensures (set m | m in p.nacks) == Refusals(p.counted)
  {
  }

  lemma DecideByRule(c: Config, p: Proposer, pick: nat)
    requires KeepsCount(c.variant, p) && PickOk(c.variant, p, pick)
    ensures DecidesByRule(c, p, Refusals(p.counted), Decide(c.n, p, pick))
  {
    NacksAreRefusals(c.variant, p);
    var q := Decide(c.n, p, pick);
    if p.nacks == [] {
      assert Refusals(p.counted) == {};
    } else {
      var top := p.nacks[pick];
      assert top in Refusals(p.counted);
      forall m | m in Refusals(p.counted)
        ensures if c.variant.keyOnAccepted then m.rproposal <= top.rproposal else m.proposal <= top.proposal
      {
        assert m in p.nacks;
      }
      assert NoneAbove(c.variant, Refusals(p.counted), top) && q.learnt == ValueOf(top);
    }
  }

  /** What a counted reply changes besides the decision. */
  predicate Counted(p: Proposer, m: Message, q: Proposer) {
    && q == p.(seen := q.seen, counted := q.counted, responses := q.responses, nacks := q.nacks)
    && q.seen == p.seen + {m} && q.counted == p.counted + {m}
  }

  /** One reply in the PROPOSING loop. */
  lemma AbsorbByRule(v: Variant, n: nat, p: Proposer, m: Message)
    requires KeepsCount(v, p) && !IsRequest(m)
    ensures var q := AbsorbPrepareReply(v, n, p, m);
      if Breaks(v, m) then q == p.(phase := Ready, num := p.num + n)
      else if NewPromise(v, p, m) then Counted(p, m, q) && KeepsCount(v, q)
      else q == p.(seen := p.seen + {m})
  {
    AbsorbCountsPromises(v, n, p, m);
    assert m in p.seen ==> p.seen + {m} == p.seen;
  }

  /** The rule for one reply in PROPOSING. */
  ghost predicate PromiseRule(c: Config, p: Proposer, m: Message, q: Proposer) {
    if Breaks(c.variant, m) then q == p.(phase := Ready, num := p.num + c.n)
    else if !NewPromise(c.variant, p, m) then q == p.(seen := p.seen + {m})
    else if !CompletesPromises(c, p, m) then Counted(p, m, q)
    else DecidesByRule(c, p, Refusals(p.counted + {m}), q)
         && q.seen == p.seen + {m} && q.counted == p.counted + {m}
  }

  lemma PromiseByRule(c: Config, p: Proposer, m: Message, pick: nat)
    requires KeepsCount(c.variant, p) && !Majority(c.n, p.responses) && !IsRequest(m)
    requires PickOk(c.variant, AbsorbPrepareReply(c.variant, c.n, p, m), pick)
    ensures PromiseRule(c, p, m, OnPrepareReply(c.variant, c.n, p, m, pick))
  {
    AbsorbByRule(c.variant, c.n, p, m);
    var q := AbsorbPrepareReply(c.variant, c.n, p, m);
    if !Breaks(c.variant, m) && NewPromise(c.variant, p, m) {
      assert m !in p.counted && q.responses == |p.counted| + 1;
      if Majority(c.n, q.responses) {
        DecideByRule(c, q, pick);
      }
    }
  }

  /** What the code as written counts: every new prepare reply for its instance that names
      a client, to whatever number it answers; a reply that names none ends the round. The
      refusal it takes answers a number as high as any. */
  lemma CodeCountsStaleReplies(c: Config, p: Proposer, m: Message, pick: nat)
    requires c.variant == AS_WRITTEN && KeepsCount(c.variant, p) && m !in p.seen && !IsRequest(m)
    ensures var q := AbsorbPrepareReply(c.variant, c.n, p, m);
      && (q.phase.Ready? <==> m.client.None?)
      && (m in q.counted <==> m.client.Some? && m.instance == p.instance && !m.kind.ACCEPT_ACK?)
      && (PickOk(c.variant, q, pick) <==>
            q.nacks == [] || (pick < |q.nacks| && forall j :: 0 <= j < |q.nacks| ==>
                                q.nacks[j].proposal <= q.nacks[pick].proposal))
  {
    AbsorbByRule(c.variant, c.n, p, m);
  }

  /** What is known of a proposer that waits for promises in a run. */
  lemma WaitingKeepsCount(c: Config, r: Run, p: nat)
    requires c.n > 0 && Valid(c, r) && InPhase(Final(c, r), p, Proposing)
    ensures KeepsCount(c.variant, Final(c, r).proposers[p]) && !Majority(c.n, Final(c, r).proposers[p].responses)
    ensures forall m :: Packet(p, m) in Final(c, r).replies ==> !IsRequest(m)
  {
    BallotInvAlways(c, r);
    assert CountSound(c, Final(c, r).proposers[p], Final(c, r).requests);
  }

  /** In every run and for every reply that completes a majority of promises: the
      proposer goes back to READY, with its next number, if and only if what it now holds
      is its own LOCK of a resource in its lock set; otherwise it goes on to ACCEPT under
      the same number. In both cases it stays at its instance, and holds the value of a
      highest refusal, or what it held before if nobody refused. */
  lemma GivesUpExactlyWhenBlocked(c: Config, r: Run, p: nat, m: Message, pick: nat)
    requires c.n > 0 && Valid(c, Then(r, ProposerReceives(p, m, pick)))
    requires InPhase(Final(c, r), p, Proposing) && CompletesPromises(c, Final(c, r).proposers[p], m)
    ensures var before, after := Final(c, r).proposers[p], Final(c, Then(r, ProposerReceives(p, m, pick))).proposers[p];
      && Taught(c.variant, Refusals(before.counted + {m}), before.learnt, after.learnt)
      && !after.halted && after.instance == before.instance && after.lockSet == before.lockSet
      && ((&& after.learnt == Value(Cmd(before.command), Some(before.client))
           && before.command.kind.LOCK? && before.command.resource in before.lockSet)
          <==> after.phase.Ready? && after.num == before.num + c.n)
      && (after.phase.Ready? || (after.phase.Accept? && after.num == before.num))
  {
    WaitingKeepsCount(c, r, p);
    PromiseByRule(c, Final(c, r).proposers[p], m, pick);
  }

  // ---------------------------------------------------------------------
  // Waiting for votes
  // ---------------------------------------------------------------------

  /** A reply that is counted as a vote. */
  predicate NewVote(p: Proposer, m: Message) {
    m !in p.seen && m.kind.ACCEPT_ACK? && m.instance == p.instance && m.proposal == p.num
  }

  predicate CompletesVotes(c: Config, p: Proposer, m: Message) {
    NewVote(p, m) && MoreThanHalf(c.n, |p.counted| + 1)
  }

  /** A command that the lock table takes. */
  predicate Executable(lockSet: seq<int>, d: Command) {
    (d.kind.LOCK? && d.resource !in lockSet) || (d.kind.UNLOCK? && d.resource in lockSet)
  }

  /** How a majority of votes leaves the proposer: the number is raised once, the instance
      is logged and recorded, the client is answered if the value is its own, and the
      process goes on at the next instance unless its table refuses the command. */
  ghost predicate ResolvesByRule(c: Config, p: Proposer, q: Proposer) {
    && p.learnt.payload.Cmd? && p.learnt.client.Some?
    && var own, d := Value(Cmd(p.command), Some(p.client)), p.learnt.payload.command;
    && q.id == p.id && q.command == p.command && q.client == p.client
    && q.num == p.num + c.n
    && q.log == p.log + [LogEntry(p.instance, p.learnt)]
    && q.resolutions == p.resolutions[p.instance := p.learnt]
    && (if p.learnt == own
        then q.phase.Idle? && q.acks == p.acks + [ClientAck(p.instance, p.command, Some(p.client))]
        else q.phase.Ready? && q.acks == p.acks)
    && (if Executable(p.lockSet, d)
        then && !q.halted && q.instance == p.instance + 1 && q.learnt == own
             && (forall x :: x in q.lockSet <==> if x == d.resource then d.kind.LOCK? else x in p.lockSet)
        else q.halted && q.instance == p.instance && q.learnt == p.learnt && q.lockSet == p.lockSet)
  }

  /** The rule for one reply in ACCEPTING. */
  ghost predicate VoteRule(c: Config, p: Proposer, m: Message, q: Proposer) {
    if !NewVote(p, m) then q == p.(seen := p.seen + {m})
    else if !CompletesVotes(c, p, m) then Counted(p, m, q) && q.nacks == p.nacks
    else ResolvesByRule(c, p, q) && q.nacks == p.nacks && q.seen == p.seen + {m} && q.counted == p.counted + {m}
  }

  /** The lock table after a command, member by member. */
  lemma ExecutesByRule(lockSet: seq<int>, d: Command)
    requires NoDuplicates(lockSet)
    ensures Executable(lockSet, d) <==> ExecuteCommand(lockSet, d).Some?
    ensures Executable(lockSet, d) ==> forall x ::
      x in ExecuteCommand(lockSet, d).value <==> if x == d.resource then d.kind.LOCK? else x in lockSet
  {
    RemoveFirstKeepsDistinct(lockSet, d.resource);
  }

  lemma VoteAbsorbed(p: Proposer, m: Message)
    requires p.phase.Accepting? && !p.halted && VotesCounted(p) && !IsRequest(m) && m.instance <= p.instance
    ensures var q := AbsorbAcceptReply(p, m);
      if NewVote(p, m) then Counted(p, m, q) && q.nacks == p.nacks && q.responses == |p.counted| + 1
      else q == p.(seen := p.seen + {m})
  {
    assert m in p.seen ==> p.seen + {m} == p.seen;
  }

  lemma FinishByRule(c: Config, p: Proposer, m: Message)
    requires IsCommand(p.learnt) && m.client == p.learnt.client && !p.halted && NoDuplicates(p.lockSet)
    ensures ResolvesByRule(c, p, Finish(c.n, p, m))
  {
    FinishResolves(c.n, p, m);
    ExecutesByRule(p.lockSet, p.learnt.payload.command);
  }

  /** A lock set of a run holds every resource once. */
  lemma LockSetsAreDistinct(c: Config, r: Run, p: nat)
    requires c.n > 0 && Valid(c, r) && p < c.n
    ensures Shape(c, Final(c, r)) && NoDuplicates(Final(c, r).proposers[p].lockSet)
  {
    ReplicaInvAlways(c, r);
    var q := Final(c, r).proposers[p];
    assert LogSound(c, Final(c, r), p);
    ReplayKeepsDistinct(CommandsOf(q.log[..q.instance]));
  }

  /** What is known of a proposer that waits for votes in a run. */
  lemma WaitingForVotes(c: Config, r: Run, p: nat)
    requires c.n > 0 && Valid(c, r) && InPhase(Final(c, r), p, Accepting)
    ensures var q := Final(c, r).proposers[p];
      VotesCounted(q) && !Majority(c.n, q.responses) && IsCommand(q.learnt) && NoDuplicates(q.lockSet)
    ensures forall m :: Packet(p, m) in Final(c, r).replies ==>
      !IsRequest(m) && m.instance <= Final(c, r).proposers[p].instance
  {
    ReplicaInvAlways(c, r);
    LockSetsAreDistinct(c, r, p);
    assert CountSound(c, Final(c, r).proposers[p], Final(c, r).requests);
  }

  /** Votes for the current number are for the value held, client included. */
  lemma VotesAreForValue(c: Config, r: Run, p: nat, m: Message)
    requires c.n > 0 && Valid(c, r) && InPhase(Final(c, r), p, Accepting) && Packet(p, m) in Final(c, r).replies
    requires var q := Final(c, r).proposers[p]; m.kind.ACCEPT_ACK? && m.instance == q.instance && m.proposal == q.num
    ensures ValueOf(m) == Final(c, r).proposers[p].learnt
  {
    BallotInvAlways(c, r);
    var s := Final(c, r);
    var q := s.proposers[p];
    assert VoteRecorded(c, s, Packet(p, m));
    assert CountSound(c, q, s.requests);
    assert AcceptMsg(q.num, q.instance, ValueOf(m), p) == AcceptMsg(q.num, q.instance, q.learnt, p);
  }

  lemma VoteByRule(c: Config, r: Run, p: nat, m: Message)
    requires c.n > 0 && Valid(c, r) && InPhase(Final(c, r), p, Accepting) && Packet(p, m) in Final(c, r).replies
    ensures VoteRule(c, Final(c, r).proposers[p], m, OnAcceptReply(c.n, Final(c, r).proposers[p], m))
  {
    WaitingForVotes(c, r, p);
    var q := Final(c, r).proposers[p];
    VoteAbsorbed(q, m);
    if CompletesVotes(c, q, m) {
      VotesAreForValue(c, r, p, m);
      FinishByRule(c, AbsorbAcceptReply(q, m), m);
    }
  }

  /** Which messages fail an assertion of the process: in PROPOSING a new request for its
      instance, in ACCEPTING also anything new from a later instance; an offer or an answer
      without a client. No run delivers such a message or makes such an offer. */
  lemma AssertionsFailExactlyWhen(v: Variant, n: nat, p: Proposer, m: Message)
    requires !p.halted
    ensures AbsorbPrepareReply(v, n, p, m).halted <==>
      !Breaks(v, m) && m !in p.seen && m.instance == p.instance && IsRequest(m)
    ensures AbsorbAcceptReply(p, m).halted <==>
      m !in p.seen && (m.instance > p.instance || (m.instance == p.instance && IsRequest(m)))
    ensures SendAccept(p).0.halted <==> p.learnt.client.None?
    ensures Acknowledge(p, m).halted <==> p.learnt == Value(Cmd(p.command), Some(p.client)) && m.client.None?
  {
  }

  // ---------------------------------------------------------------------
  // Every step of every run
  // ---------------------------------------------------------------------

  /** How one step of the cluster moves proposer p, from before to after. */
  ghost predicate MovesByRule(c: Config, act: Action, p: nat, before: Proposer, after: Proposer) {
    match act
    case ClientSubmits(q, command, client) =>
      after == if q != p then before
               else before.(phase := Ready, command := command, client := client,
                            learnt := Value(Cmd(command), Some(client)))
    case SendsPrepare(q) =>
      after == if q != p then before
               else before.(phase := Proposing, counted := {}, responses := 0, nacks := [])
    case SendsAccept(q) =>
      after == if q != p then before else before.(phase := Accepting, counted := {}, responses := 0)
    case TimesOut(q) =>
      after == if q != p then before
               else before.(phase := Ready, num := before.num + (if before.phase.Proposing? then c.n else 2 * c.n))
    case AcceptorReceives(_, _) => after == before
    case ProposerReceives(q, m, _) =>
      if q != p then after == before
      else if before.phase.Proposing? then PromiseRule(c, before, m, after)
      else VoteRule(c, before, m, after)
  }

  /** What one step of the cluster sends to the acceptors. */
  function SentByRule(s: System, act: Action): set<Message> {
    match act
    case SendsPrepare(p) =>
      if p >= |s.proposers| then {}
      else
        var q := s.proposers[p];
        {Message(PREPARE, q.num, q.instance, NoValue, p, Some(q.client), -1)}
    case SendsAccept(p) =>
      if p >= |s.proposers| then {}
      else
        var q := s.proposers[p];
        {Message(ACCEPT, q.num, q.instance, q.learnt.payload, p, q.learnt.client, -1)}
    case _ => {}
  }

  lemma ReplyByRule(c: Config, r: Run, p: nat, m: Message, pick: nat)
    requires c.n > 0 && Valid(c, Then(r, ProposerReceives(p, m, pick)))
    ensures p < |Final(c, r).proposers|
    ensures var before, after := Final(c, r).proposers[p], Final(c, Then(r, ProposerReceives(p, m, pick))).proposers[p];
      if before.phase.Proposing? then PromiseRule(c, before, m, after) else VoteRule(c, before, m, after)
  {
    if Final(c, r).proposers[p].phase.Proposing? {
      WaitingKeepsCount(c, r, p);
      PromiseByRule(c, Final(c, r).proposers[p], m, pick);
    } else {
      VoteByRule(c, r, p, m);
    }
  }

  ghost predicate StepByRules(c: Config, s: System, act: Action, t: System) {
    && |t.proposers| == |s.proposers|
    && t.requests == s.requests + SentByRule(s, act)
    && forall p :: 0 <= p < |s.proposers| ==> MovesByRule(c, act, p, s.proposers[p], t.proposers[p])
  }

  lemma QuietByRules(c: Config, s: System, act: Action)
    requires Shape(c, s) && Typed(s) && Enabled(c, s, act) && !act.ProposerReceives?
    ensures StepByRules(c, s, act, Apply(c, s, act))
  {
  }

  lemma StepsByRules(c: Config, r: Run, act: Action)
    requires c.n > 0 && Valid(c, Then(r, act))
    ensures StepByRules(c, Final(c, r), act, Final(c, Then(r, act)))
  {
    ReplicaInvAlways(c, r);
    if act.ProposerReceives? {
      ReplyByRule(c, r, act.p, act.reply, act.pick);
    } else {
      QuietByRules(c, Final(c, r), act);
    }
  }

  /** Every step so far went by the rules. */
  ghost predicate Lives(c: Config, r: Run)
    requires Valid(c, r)
  {
    match r
    case Start => true
    case Then(before, act) => Lives(c, before) && StepByRules(c, Final(c, before), act, Final(c, r))
  }

  /** The whole life of every proposer, in every run of every variant. */
  lemma {:induction false} ProposersLiveByRules(c: Config, r: Run)
    requires c.n > 0 && Valid(c, r)
    ensures Lives(c, r)
  {
    match r
    case Start =>
    case Then(before, act) =>
      ProposersLiveByRules(c, before);
      StepsByRules(c, before, act);
  }

  // ---------------------------------------------------------------------
  // What the variables of a proposer tell about its past
  // ---------------------------------------------------------------------

  /** By how many steps of n a number is raised, read from the phases before and after: one
      when the server gives up or resolves, two when it times out waiting for votes. */
  function RaisedBy(act: Action, was: Phase, now: Phase): nat {
    if was.Proposing? && now.Ready? then 1
    else if was.Accepting? && !now.Accepting? then (if act.TimesOut? then 2 else 1)
    else 0
  }

  /** The reply that p takes note of in a step: any it receives while waiting, unless it
      ends the round at once. */
  function TakenBy(c: Config, act: Action, p: nat, was: Phase): set<Message> {
    if act.ProposerReceives? && act.p == p && !(was.Proposing? && Breaks(c.variant, act.reply))
    then {act.reply} else {}
  }

  /** The phase of p at the end of a run. */
  ghost function PhaseOf(c: Config, r: Run, p: nat): Phase
    requires Valid(c, r)
  {
    if p < |Final(c, r).proposers| then Final(c, r).proposers[p].phase else Idle
  }

  ghost function Raises(c: Config, r: Run, p: nat): nat
    requires Valid(c, r)
  {
    match r
    case Start => 0
    case Then(before, act) => Raises(c, before, p) + RaisedBy(act, PhaseOf(c, before, p), PhaseOf(c, r, p))
  }

  ghost function Taken(c: Config, r: Run, p: nat): set<Message>
    requires Valid(c, r)
  {
    match r
    case Start => {}
    case Then(before, act) => Taken(c, before, p) + TakenBy(c, act, p, PhaseOf(c, before, p))
  }

  /** The phase that an action of p starts from. */
  predicate StartsFrom(act: Action, p: nat, phase: Phase) {
    match act
    case ClientSubmits(q, _, _) => q == p ==> phase.Idle?
    case SendsPrepare(q) => q == p ==> phase.Ready?
    case SendsAccept(q) => q == p ==> phase.Accept?
    case TimesOut(q) => q == p ==> phase.Proposing? || phase.Accepting?
    case AcceptorReceives(_, _) => true
    case ProposerReceives(q, _, _) => q == p ==> phase.Proposing? || phase.Accepting?
  }

  lemma PromiseRaises(c: Config, p: Proposer, m: Message, q: Proposer)
    requires p.phase.Proposing? && PromiseRule(c, p, m, q)
    ensures q.num == if q.phase.Ready? then p.num + c.n else p.num
    ensures q.seen == if Breaks(c.variant, m) then p.seen else p.seen + {m}
  {
  }

  lemma VoteRaises(c: Config, p: Proposer, m: Message, q: Proposer)
    requires p.phase.Accepting? && VoteRule(c, p, m, q)
    ensures q.num == if q.phase.Accepting? then p.num else p.num + c.n
    ensures q.seen == p.seen + {m}
  {
  }

  lemma RaiseStep(c: Config, act: Action, p: nat, before: Proposer, after: Proposer)
    requires MovesByRule(c, act, p, before, after) && StartsFrom(act, p, before.phase)
    ensures after.num == before.num + c.n * RaisedBy(act, before.phase, after.phase)
    ensures after.seen == before.seen + TakenBy(c, act, p, before.phase)
  {
    if act.ProposerReceives? && act.p == p {
      if before.phase.Proposing? {
        PromiseRaises(c, before, act.reply, after);
      } else {
        VoteRaises(c, before, act.reply, after);
      }
    }
  }

  /** One more step, in numbers and sets. */
  lemma Accumulates(n: nat, p: nat, num: nat, a: nat, more: nat, after: nat, b: nat)
    requires num == p + n * a && after == num + n * more && b == a + more
    ensures after == p + n * b
  {
  }

  lemma StepRaises(c: Config, r: Run, act: Action, p: nat)
    requires c.n > 0 && Valid(c, Then(r, act)) && p < c.n
    ensures Shape(c, Final(c, r)) && Shape(c, Final(c, Then(r, act)))
    ensures var before, after := Final(c, r).proposers[p], Final(c, Then(r, act)).proposers[p];
      && after.num == before.num + c.n * RaisedBy(act, before.phase, after.phase)
      && after.seen == before.seen + TakenBy(c, act, p, before.phase)
  {
    BallotInvAlways(c, r);
    ShapeStep(c, Final(c, r), act);
    StepsByRules(c, r, act);
    RaiseStep(c, act, p, Final(c, r).proposers[p], Final(c, Then(r, act)).proposers[p]);
  }

  lemma NoRaises(c: Config, p: nat)
    requires p < c.n
    ensures var q := Init(c).proposers[p]; q.num == p + c.n * Raises(c, Start, p) && q.seen == Taken(c, Start, p)
  {
  }

  /** In every run the number of a server is its id and n for every raise, and its message
      history is what it has taken. */
  lemma {:induction false} NumbersAndHistories(c: Config, r: Run, p: nat)
    requires c.n > 0 && Valid(c, r) && p < c.n
    ensures p < |Final(c, r).proposers|
    ensures Final(c, r).proposers[p].num == p + c.n * Raises(c, r, p)
    ensures Final(c, r).proposers[p].seen == Taken(c, r, p)
  {
    match r
    case Start => NoRaises(c, p);
    case Then(before, act) =>
      NumbersAndHistories(c, before, p);
      StepRaises(c, before, act, p);
      Accumulates(c.n, p, Final(c, before).proposers[p].num, Raises(c, before, p),
                  RaisedBy(act, PhaseOf(c, before, p), PhaseOf(c, r, p)),
                  Final(c, r).proposers[p].num, Raises(c, r, p));
  }
}
