/** The proposer process: Paxos proposer, learner and lock-table executor. */
module Proposers {
  import opened Options
  import opened Commands
  import opened Messages

  /** Three decisions of the proposer text, switchable so that their effect can be stated.
      - abortOnNone: a reply whose client_id is None fails an assertion and aborts the round;
      - matchProposal: prepare replies must carry the current proposal number;
      - keyOnAccepted: among the NACKs the highest *accepted* number wins. */
  datatype Variant = Variant(abortOnNone: bool, matchProposal: bool, keyOnAccepted: bool)

  /** server.py as it stands. */
  const AS_WRITTEN := Variant(true, false, false)
  /** The protocol the design document describes: repairs in place of the assertion. */
  const INTENDED := Variant(false, true, true)

  datatype Phase = Idle | Ready | Proposing | Accept | Accepting

  datatype LogEntry = LogEntry(instance: nat, value: Value)

  datatype ClientAck = ClientAck(instance: nat, command: Command, client: Option<int>)

  /** The proposer's variables. `counted` is an auxiliary record of the replies
      behind `responses` in the current waiting loop; no handler reads it. */
  datatype Proposer = Proposer(
    id: nat,
    phase: Phase,
    num: nat,
    instance: nat,
    command: Command,
    client: int,
    learnt: Value,
    responses: nat,
    nacks: seq<Message>,
    seen: set<Message>,
    lockSet: seq<int>,
    log: seq<LogEntry>,
    resolutions: map<nat, Value>,
    acks: seq<ClientAck>,
    halted: bool,
    counted: set<Message>)
  {
    /** The command being served for the connected client. */
    function Own(): Value {
      Value(Cmd(command), Some(client))
    }

    /** A command that would lock a resource that is already held. */
    predicate Blocked() {
      command.kind.LOCK? && command.resource in lockSet
    }
  }

  function InitProposer(id: nat): Proposer {
    var none := Command(NONE, 0);
    Proposer(id, Idle, id, 0, none, 0, Value(Cmd(none), Some(0)), 0, [], {}, [], [], map[], [], false, {})
  }

  /** More than half of the group. */
  predicate Majority(n: nat, k: nat) {
    k > n / 2
  }

  /** A client message arrives. */
  function Submit(p: Proposer, command: Command, client: int): Proposer {
    p.(command := command, client := client, learnt := Value(Cmd(command), Some(client)), phase := Ready)
  }

  /** READY: send the prepare request. */
  function Prepare(p: Proposer): (r: (Proposer, Message)) {
    (p.(phase := Proposing, responses := 0, nacks := [], counted := {}),
     PrepareMsg(p.num, p.instance, p.id, p.client))
  }

  /** A prepare round that is given up. */
  function AbortPrepare(n: nat, p: Proposer): Proposer {
    p.(phase := Ready, num := p.num + n)
  }

  function Count(p: Proposer, m: Message): Proposer {
    p.(responses := p.responses + 1, counted := p.counted + {m})
  }

  /** PROPOSING: what one message from the queue does before the loop test. */
  function AbsorbPrepareReply(v: Variant, n: nat, p: Proposer, m: Message): Proposer {
    if v.abortOnNone && m.client.None? then AbortPrepare(n, p)
    else if m in p.seen then p
    else
      var q := p.(seen := p.seen + {m});
      if m.instance != q.instance then q
      else
        match m.kind
        case PREPARE_ACK =>
          if v.matchProposal && m.proposal != q.num then q else Count(q, m)
        case PREPARE_NACK =>
          if v.matchProposal && m.proposal != q.num then q else Count(q, m).(nacks := q.nacks + [m])
        case ACCEPT_ACK => q
        case _ => q.(halted := true)
  }

  /** The first component of the tuples that max() compares. */
  function Key(v: Variant, m: Message): int {
    if v.keyOnAccepted then m.rproposal else m.proposal
  }

  /** max() over (key, message) returns some element with the highest key: messages
      themselves have no order, so ties are broken arbitrarily. */
  predicate IsHighest(v: Variant, nacks: seq<Message>, pick: nat) {
    && pick < |nacks|
    && forall j :: 0 <= j < |nacks| ==> Key(v, nacks[j]) <= Key(v, nacks[pick])
  }

  /** Whether `pick` can be the outcome of max() when there is one to take. */
  predicate PickOk(v: Variant, p: Proposer, pick: nat) {
    p.nacks == [] || IsHighest(v, p.nacks, pick)
  }

  /** PROPOSING, after a majority answered: learn, then accept or feign a failure. */
  function Decide(n: nat, p: Proposer, pick: nat): Proposer {
    var q := if pick < |p.nacks| then p.(learnt := ValueOf(p.nacks[pick])) else p;
    if q.learnt == q.Own() && q.Blocked() then AbortPrepare(n, q)
    else q.(phase := Accept)
  }

  function OnPrepareReply(v: Variant, n: nat, p: Proposer, m: Message, pick: nat): Proposer {
    var q := AbsorbPrepareReply(v, n, p, m);
    if q.phase.Proposing? && !q.halted && Majority(n, q.responses) then Decide(n, q, pick) else q
  }

  /** ACCEPT: send the accept request, unless the assertion on its client fails. */
  function SendAccept(p: Proposer): (r: (Proposer, Option<Message>)) {
    if p.learnt.client.None? then (p.(halted := true), None)
    else
      (p.(phase := Accepting, responses := 0, counted := {}),
       Some(AcceptMsg(p.num, p.instance, p.learnt, p.id)))
  }

  /** ACCEPTING: a timeout; the number is raised twice and `learnt` is kept. */
  function AbortAccept(n: nat, p: Proposer): Proposer {
    p.(phase := Ready, num := p.num + n + n)
  }

  /** ACCEPTING: what one message from the queue does before the loop test. */
  function AbsorbAcceptReply(p: Proposer, m: Message): Proposer {
    if m in p.seen then p
    else
      var q := p.(seen := p.seen + {m});
      if m.instance != q.instance then
        if m.instance < q.instance then q else q.(halted := true)
      else
        match m.kind
        case ACCEPT_ACK => if m.proposal == q.num then Count(q, m) else q
        case PREPARE_ACK => q
        case PREPARE_NACK => q
        case _ => q.(halted := true)
  }

  /** execute_command on the learnt value; a failed assertion stops the process
      with the resolution already recorded. */
  function Execute(p: Proposer): Proposer {
    var after := if p.learnt.payload.Cmd? then ExecuteCommand(p.lockSet, p.learnt.payload.command) else None;
    if after.Some? then p.(lockSet := after.value, instance := p.instance + 1, learnt := p.Own())
    else p.(halted := true)
  }

  /** Answer the client if its command was accepted; `last` is the message that
      completed the majority. */
  function Acknowledge(p: Proposer, last: Message): Proposer {
    if p.learnt != p.Own() then p.(phase := Ready)
    else if last.client.None? then p.(phase := Idle, halted := true)
    else p.(phase := Idle, acks := p.acks + [ClientAck(p.instance, p.command, last.client)])
  }

  /** Record the resolution and execute it. */
  function Record(p: Proposer, last: Message): Proposer {
    Execute(p.(resolutions := p.resolutions[p.instance := Value(p.learnt.payload, last.client)],
               log := p.log + [LogEntry(p.instance, p.learnt)]))
  }

  /** ACCEPTING, after a majority accepted. */
  function Finish(n: nat, p: Proposer, last: Message): Proposer {
    var q := Acknowledge(p.(num := p.num + n), last);
    if q.halted then q else Record(q, last)
  }

  function OnAcceptReply(n: nat, p: Proposer, m: Message): Proposer {
    var q := AbsorbAcceptReply(p, m);
    if !q.halted && Majority(n, q.responses) then Finish(n, q, m) else q
  }
}
