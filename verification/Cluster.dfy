/** A group of servers on a network that drops, duplicates and reorders messages. */
module Cluster {
  import opened Options
  import opened Commands
  import opened Messages
  import opened Acceptors
  import opened Proposers

  /** n servers, all running the same variant of the proposer. */
  datatype Config = Config(n: nat, variant: Variant)

  /** A reply on its way to the proposer of server dst. */
  datatype Packet = Packet(dst: nat, msg: Message)

  /** Sent messages are never removed: delivering one any number of times, or
      never, covers loss, duplication and reordering. Requests go to every server
      but their origin. */
  datatype System = System(
    acceptors: seq<Acceptor>,
    proposers: seq<Proposer>,
    requests: set<Message>,
    replies: set<Packet>)

  datatype Action =
    | ClientSubmits(p: nat, command: Command, client: int)
    | SendsPrepare(p: nat)
    | SendsAccept(p: nat)
    | TimesOut(p: nat)
    | AcceptorReceives(a: nat, request: Message)
    | ProposerReceives(p: nat, reply: Message, pick: nat)

  function Init(c: Config): System {
    System(seq(c.n, (i: nat) => Acceptor(i, map[], {})), seq(c.n, (i: nat) => InitProposer(i)), {}, {})
  }

  /** The running proposer of a server, in one of its phases. */
  predicate InPhase(s: System, p: nat, phase: Phase) {
    p < |s.proposers| && !s.proposers[p].halted && s.proposers[p].phase == phase
  }

  /** Requests are routed to acceptors and replies to proposers by message type. */
  predicate Enabled(c: Config, s: System, act: Action)
  {
    match act
    case ClientSubmits(p, _, _) => InPhase(s, p, Idle)
    case SendsPrepare(p) => InPhase(s, p, Ready)
    case SendsAccept(p) => InPhase(s, p, Accept)
    case TimesOut(p) => InPhase(s, p, Proposing) || InPhase(s, p, Accepting)
    case AcceptorReceives(a, m) =>
      a < |s.acceptors| && m in s.requests && IsRequest(m) && m.origin != a
    case ProposerReceives(p, m, pick) =>
      && Packet(p, m) in s.replies
      && (|| InPhase(s, p, Accepting)
          || (&& InPhase(s, p, Proposing)
              && PickOk(c.variant, AbsorbPrepareReply(c.variant, c.n, s.proposers[p], m), pick)))
  }

  function Sent(m: Option<Message>): set<Message> {
    if m.Some? then {m.value} else {}
  }

  function Apply(c: Config, s: System, act: Action): System
    requires Enabled(c, s, act)
  {
    match act
    case ClientSubmits(p, command, client) =>
      s.(proposers := s.proposers[p := Submit(s.proposers[p], command, client)])
    case SendsPrepare(p) =>
      var (q, m) := Prepare(s.proposers[p]);
      s.(proposers := s.proposers[p := q], requests := s.requests + {m})
    case SendsAccept(p) =>
      var (q, m) := SendAccept(s.proposers[p]);
      s.(proposers := s.proposers[p := q], requests := s.requests + Sent(m))
    case TimesOut(p) =>
      var q := if s.proposers[p].phase.Proposing? then AbortPrepare(c.n, s.proposers[p])
               else AbortAccept(c.n, s.proposers[p]);
      s.(proposers := s.proposers[p := q])
    case AcceptorReceives(a, m) =>
      var (b, reply) := Receive(s.acceptors[a], m);
      s.(acceptors := s.acceptors[a := b],
         replies := s.replies + (if reply.Some? then {Packet(m.origin, reply.value)} else {}))
    case ProposerReceives(p, m, pick) =>
      var q := if s.proposers[p].phase.Proposing? then OnPrepareReply(c.variant, c.n, s.proposers[p], m, pick)
               else OnAcceptReply(c.n, s.proposers[p], m);
      s.(proposers := s.proposers[p := q])
  }

  /** A finite run, as the list of its actions. */
  datatype Run = Start | Then(before: Run, act: Action)

  ghost predicate Valid(c: Config, r: Run)
    decreases r, 0
  {
    match r
    case Start => true
    case Then(before, act) => Valid(c, before) && Enabled(c, Final(c, before), act)
  }

  ghost function Final(c: Config, r: Run): System
    requires Valid(c, r)
    decreases r, 1
  {
    match r
    case Start => Init(c)
    case Then(before, act) => Apply(c, Final(c, before), act)
  }

  /** r2 continues r1. */
  predicate Extends(r1: Run, r2: Run) {
    r1 == r2 || (r2.Then? && Extends(r1, r2.before))
  }

  lemma {:induction false} ExtendsThrough(r1: Run, r2: Run, r3: Run)
    requires Extends(r1, r2) && Extends(r2, r3)
    ensures Extends(r1, r3)
  {
    if r2 != r3 {
      ExtendsThrough(r1, r2, r3.before);
    }
  }
}
