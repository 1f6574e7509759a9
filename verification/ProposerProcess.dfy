/** The proposer process as an object whose methods are the branches of its main loop,
    and the proof that each branch is a sequence of steps of the cluster. */
module ProposerProcesses {
  import opened Options
  import opened Commands
  import opened Messages
  import opened Proposers
  import opened Cluster

  // ---------------------------------------------------------------------
  // The two waiting loops as functions of the messages on the queue
  // ---------------------------------------------------------------------

  /** The PROPOSING loop: messages are taken while too few replies are counted. */
  function AbsorbAll(v: Variant, n: nat, p: Proposer, queue: seq<Message>): Proposer
    decreases |queue|
  {
    if queue == [] || !p.phase.Proposing? || p.halted || Majority(n, p.responses) then p
    else AbsorbAll(v, n, AbsorbPrepareReply(v, n, p, queue[0]), queue[1..])
  }

  /** The whole PROPOSING branch; the queue runs dry at the timeout. */
  function PromiseRound(v: Variant, n: nat, p: Proposer, queue: seq<Message>, pick: nat): Proposer {
    var q := AbsorbAll(v, n, p, queue);
    if !q.phase.Proposing? || q.halted then q
    else if Majority(n, q.responses) then Decide(n, q, pick)
    else AbortPrepare(n, q)
  }

  /** The whole ACCEPTING branch. */
  function VoteRound(n: nat, p: Proposer, queue: seq<Message>): Proposer
    decreases |queue|
  {
    if !p.phase.Accepting? || p.halted then p
    else if queue == [] then AbortAccept(n, p)
    else VoteRound(n, OnAcceptReply(n, p, queue[0]), queue[1..])
  }

  /** One message of the ACCEPTING loop: it goes on, ends in a resolution or stops. */
  lemma VoteRoundStep(n: nat, p: Proposer, queue: seq<Message>, i: nat)
    requires i < |queue| && p.phase.Accepting? && !p.halted
    ensures var q := AbsorbAcceptReply(p, queue[i]);
      && q.phase.Accepting?
      && VoteRound(n, p, queue[i..]) ==
           if q.halted then q
           else if Majority(n, q.responses) then Finish(n, q, queue[i])
           else VoteRound(n, q, queue[i + 1..])
  {
    assert queue[i..][1..] == queue[i + 1..];
  }

  // ---------------------------------------------------------------------
  // The branches are runs
  // ---------------------------------------------------------------------

  /** A cluster in which only proposer p moved, to q. */
  ghost predicate OnlyMoved(s: System, t: System, p: nat, q: Proposer) {
    p < |s.proposers| && t == s.(proposers := s.proposers[p := q])
  }

  /** The PROPOSING branch on delivered replies is a run of deliveries that ends in a
      decision, a failed assertion, or a timeout. */
  lemma {:induction false} PromiseRoundIsRun(c: Config, r: Run, p: nat, queue: seq<Message>, pick: nat)
    returns (after: Run)
    requires Valid(c, r) && InPhase(Final(c, r), p, Proposing)
    requires !Majority(c.n, Final(c, r).proposers[p].responses)
    requires forall m :: m in queue ==> Packet(p, m) in Final(c, r).replies
    requires PickOk(c.variant, AbsorbAll(c.variant, c.n, Final(c, r).proposers[p], queue), pick)
    ensures Valid(c, after) && Extends(r, after)
    ensures OnlyMoved(Final(c, r), Final(c, after), p,
                      PromiseRound(c.variant, c.n, Final(c, r).proposers[p], queue, pick))
    decreases |queue|
  {
    var s := Final(c, r);
    var q := s.proposers[p];
    if queue == [] {
      after := Then(r, TimesOut(p));
      return;
    }
    var a := AbsorbPrepareReply(c.variant, c.n, q, queue[0]);
    var chosen: nat := pick;
    if !a.phase.Proposing? || a.halted || Majority(c.n, a.responses) {
      assert AbsorbAll(c.variant, c.n, a, queue[1..]) == a;
    } else {
      chosen := HighestExists(c.variant, a.nacks);
    }
    var one := Then(r, ProposerReceives(p, queue[0], chosen));
    assert Final(c, one).proposers[p] == OnPrepareReply(c.variant, c.n, q, queue[0], chosen);
    if a.phase.Proposing? && !a.halted && !Majority(c.n, a.responses) {
      assert Final(c, one).proposers[p] == a;
      after := PromiseRoundIsRun(c, one, p, queue[1..], pick);
      ExtendsThrough(r, one, after);
    } else {
      after := one;
    }
  }

  /** Some reply always has the highest key. */
  lemma {:induction false} HighestExists(v: Variant, nacks: seq<Message>) returns (pick: nat)
    ensures nacks == [] || IsHighest(v, nacks, pick)
  {
    pick := 0;
    if |nacks| > 1 {
      var best := HighestExists(v, nacks[..|nacks| - 1]);
      pick := if Key(v, nacks[best]) < Key(v, nacks[|nacks| - 1]) then |nacks| - 1 else best;
    }
  }

  /** The ACCEPTING branch on delivered replies is a run of deliveries that ends in a
      resolution or a timeout. */
  lemma {:induction false} VoteRoundIsRun(c: Config, r: Run, p: nat, queue: seq<Message>) returns (after: Run)
    requires Valid(c, r) && p < |Final(c, r).proposers|
    requires forall m :: m in queue ==> Packet(p, m) in Final(c, r).replies
    ensures Valid(c, after) && Extends(r, after)
    ensures OnlyMoved(Final(c, r), Final(c, after), p, VoteRound(c.n, Final(c, r).proposers[p], queue))
    decreases |queue|
  {
    var s := Final(c, r);
    var q := s.proposers[p];
    if !q.phase.Accepting? || q.halted {
      after := r;
    } else if queue == [] {
      after := Then(r, TimesOut(p));
    } else {
      var one := Then(r, ProposerReceives(p, queue[0], 0));
      assert Final(c, one).proposers[p] == OnAcceptReply(c.n, q, queue[0]);
      after := VoteRoundIsRun(c, one, p, queue[1..]);
      ExtendsThrough(r, one, after);
    }
  }

  // ---------------------------------------------------------------------
  // The process
  // ---------------------------------------------------------------------

  class ProposerProcess {
    const id: nat
    const n: nat
    const variant: Variant
    var state: Phase
    var proposerNum: nat
    var instance: nat
    var clientCommand: Command
    var origClient: int
    var learntCommand: Payload
    var learntClient: Option<int>
    var responseCnt: nat
    var preNacks: seq<Message>
    var msgHistory: set<Message>
    var lockSet: seq<int>
    var logfile: seq<LogEntry>
    var instanceResolutions: map<nat, Value>
    var acks: seq<ClientAck>
    var halted: bool
    ghost var counted: set<Message>

    ghost function State(): Proposer
      reads this
    {
      Proposer(id, state, proposerNum, instance, clientCommand, origClient, Value(learntCommand, learntClient),
               responseCnt, preNacks, msgHistory, lockSet, logfile, instanceResolutions, acks, halted, counted)
    }

    constructor (id: nat, n: nat, variant: Variant)
      ensures State() == InitProposer(id) && this.n == n && this.variant == variant
    {
      this.id, this.n, this.variant := id, n, variant;
      state, proposerNum, instance := Idle, id, 0;
      clientCommand, origClient := Command(NONE, 0), 0;
      learntCommand, learntClient := Cmd(Command(NONE, 0)), Some(0);
      responseCnt, preNacks, msgHistory := 0, [], {};
      lockSet, logfile, instanceResolutions, acks, halted := [], [], map[], [], false;
      counted := {};
    }

    method ServeClient(command: Command, client: int)
      requires state == Idle && !halted
      modifies this
      ensures State() == Submit(old(State()), command, client)
    {
      clientCommand, origClient := command, client;
      learntCommand, learntClient := Cmd(command), Some(client);
      state := Ready;
    }

    method SendPrepare() returns (msg: Message)
      requires state == Ready && !halted
      modifies this
      ensures (State(), msg) == Prepare(old(State()))
    {
      msg := PrepareMsg(proposerNum, instance, id, origClient);
      preNacks := [];
      responseCnt := 0;
      counted := {};
      state := Proposing;
    }

    /** if_dup: remembers the signature of a message and tells whether it is known. */
    method IsDuplicate(msg: Message) returns (known: bool)
      modifies this`msgHistory
      ensures known == (msg in old(msgHistory))
      ensures msgHistory == old(msgHistory) + {msg}
    {
      known := msg in msgHistory;
      msgHistory := msgHistory + {msg};
    }

    /** max() over stored NACKs. */
    method HighestOf(nacks: seq<Message>) returns (pick: nat)
      ensures nacks == [] || IsHighest(variant, nacks, pick)
    {
      pick := 0;
      if nacks == [] {
        return;
      }
      for i := 1 to |nacks|
        invariant pick < i
        invariant forall j :: 0 <= j < i ==> Key(variant, nacks[j]) <= Key(variant, nacks[pick])
      {
        if Key(variant, nacks[pick]) < Key(variant, nacks[i]) {
          pick := i;
        }
      }
    }

    /** A prepare round that is given up: a higher number next time. */
    method GiveUpPrepare()
      modifies this`state, this`proposerNum
      ensures State() == AbortPrepare(n, old(State()))
    {
      state := Ready;
      proposerNum := proposerNum + n;
    }

    /** One message in the PROPOSING loop. */
    method TakePrepareReply(msg: Message)
      requires state == Proposing && !halted
      modifies this
      ensures State() == AbsorbPrepareReply(variant, n, old(State()), msg)
    {
      if variant.abortOnNone && msg.client.None? {
        GiveUpPrepare();
        return;
      }
      var known := IsDuplicate(msg);
      if known {
        assert State() == old(State());
      } else if msg.instance == instance {
        match msg.kind {
          case PREPARE_ACK =>
            if !variant.matchProposal || msg.proposal == proposerNum {
              responseCnt := responseCnt + 1;
              counted := counted + {msg};
            }
          case PREPARE_NACK =>
            if !variant.matchProposal || msg.proposal == proposerNum {
              preNacks := preNacks + [msg];
              responseCnt := responseCnt + 1;
              counted := counted + {msg};
            }
          case ACCEPT_ACK =>
          case _ =>
            halted := true;
        }
      }
    }

    /** A majority answered: learn the highest reply, then accept or feign a failure. */
    method LearnAndDecide() returns (pick: nat)
      requires state == Proposing && !halted
      modifies this
      ensures PickOk(variant, old(State()), pick)
      ensures State() == Decide(n, old(State()), pick)
    {
      pick := 0;
      if preNacks != [] {
        pick := HighestOf(preNacks);
        learntCommand, learntClient := preNacks[pick].payload, preNacks[pick].client;
      }
      if learntClient == Some(origClient) && learntCommand == Cmd(clientCommand)
         && clientCommand.kind == LOCK && clientCommand.resource in lockSet {
        GiveUpPrepare();
      } else {
        state := Accept;
      }
    }

    /** The PROPOSING branch: wait for promises, then learn, accept or start over. */
    method AwaitPromises(queue: seq<Message>) returns (ghost pick: nat)
      requires state == Proposing && !halted
      modifies this
      ensures PickOk(variant, AbsorbAll(variant, n, old(State()), queue), pick)
      ensures State() == PromiseRound(variant, n, old(State()), queue, pick)
    {
      var i := 0;
      while state == Proposing && !halted && responseCnt <= n / 2 && i < |queue|
        invariant 0 <= i <= |queue|
        invariant AbsorbAll(variant, n, old(State()), queue) == AbsorbAll(variant, n, State(), queue[i..])
        decreases |queue| - i
      {
        assert queue[i..][1..] == queue[i + 1..];
        TakePrepareReply(queue[i]);
        i := i + 1;
      }
      ghost var waited := State();
      assert AbsorbAll(variant, n, old(State()), queue) == waited;
      pick := HighestExists(variant, waited.nacks);
      if state == Proposing && !halted {
        if responseCnt <= n / 2 {
          GiveUpPrepare();
        } else {
          pick := LearnAndDecide();
        }
      }
    }

    method RequestAccept() returns (msg: Option<Message>)
      requires state == Accept && !halted
      modifies this
      ensures (State(), msg) == SendAccept(old(State()))
    {
      if learntClient == None {
        halted := true;
        return None;
      }
      msg := Some(AcceptMsg(proposerNum, instance, Value(learntCommand, learntClient), id));
      responseCnt := 0;
      counted := {};
      state := Accepting;
    }

    /** execute_command on the learnt command, and what follows it. */
    method ExecuteLearnt()
      requires !halted
      modifies this
      ensures State() == Execute(old(State()))
    {
      if learntCommand.Cmd? {
        var cmd := learntCommand.command;
        if cmd.kind == LOCK && cmd.resource !in lockSet {
          lockSet := lockSet + [cmd.resource];
        } else if cmd.kind == UNLOCK && cmd.resource in lockSet && cmd.resource !in RemoveFirst(lockSet, cmd.resource) {
          lockSet := RemoveFirst(lockSet, cmd.resource);
        } else {
          halted := true;
          return;
        }
      } else {
        halted := true;
        return;
      }
      instance := instance + 1;
      learntCommand, learntClient := Cmd(clientCommand), Some(origClient);
    }

    /** One message in the ACCEPTING loop. */
    method TakeAcceptReply(msg: Message)
      requires state == Accepting && !halted
      modifies this
      ensures State() == AbsorbAcceptReply(old(State()), msg)
    {
      var known := IsDuplicate(msg);
      if known {
        assert State() == old(State());
      } else if msg.instance != instance {
        if msg.instance > instance {
          halted := true;
        }
      } else {
        match msg.kind {
          case ACCEPT_ACK =>
            if msg.proposal == proposerNum {
              responseCnt := responseCnt + 1;
              counted := counted + {msg};
            }
          case PREPARE_ACK =>
          case PREPARE_NACK =>
          case _ =>
            halted := true;
        }
      }
    }

    /** Answer the client when the accepted command is its own. */
    method AnswerClient(last: Message)
      requires !halted
      modifies this
      ensures State() == Acknowledge(old(State()), last)
    {
      if learntCommand == Cmd(clientCommand) && learntClient == Some(origClient) {
        state := Idle;
        if last.client == None {
          halted := true;
          return;
        }
        acks := acks + [ClientAck(instance, clientCommand, last.client)];
      } else {
        state := Ready;
      }
    }

    /** A majority accepted: answer, record, execute, and move on. */
    method Resolve(last: Message)
      requires state == Accepting && !halted
      modifies this
      ensures State() == Finish(n, old(State()), last)
    {
      proposerNum := proposerNum + n;
      AnswerClient(last);
      if halted {
        return;
      }
      instanceResolutions := instanceResolutions[instance := Value(learntCommand, last.client)];
      logfile := logfile + [LogEntry(instance, Value(learntCommand, learntClient))];
      ExecuteLearnt();
    }

    /** The ACCEPTING branch: wait for votes, then resolve the instance or start over. */
    method AwaitVotes(queue: seq<Message>)
      requires state == Accepting && !halted && responseCnt <= n / 2
      modifies this
      ensures State() == VoteRound(n, old(State()), queue)
    {
      ghost var round := VoteRound(n, State(), queue);
      var i := 0;
      assert queue[0..] == queue;
      while responseCnt <= n / 2 && i < |queue|
        invariant 0 <= i <= |queue|
        invariant state == Accepting && !halted
        invariant responseCnt <= n / 2 ==> round == VoteRound(n, State(), queue[i..])
        invariant responseCnt > n / 2 ==> i > 0 && round == Finish(n, State(), queue[i - 1])
        decreases |queue| - i
      {
        VoteRoundStep(n, State(), queue, i);
        TakeAcceptReply(queue[i]);
        i := i + 1;
        if halted {
          return;
        }
      }
      if responseCnt > n / 2 {
        Resolve(queue[i - 1]);
      } else {
        state := Ready;
        proposerNum := proposerNum + n + n;
      }
    }
  }
}
