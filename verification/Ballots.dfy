/** What every step of a cluster keeps, whatever the variant of the proposer:
    proposal numbers, promises, votes and the counting of replies. */
module Ballots {
  import opened Options
  import opened Messages
  import opened Acceptors
  import opened Proposers
  import opened Cluster

  /** The server that owns a proposal number: the remainder modulo n. */
  function Owner(n: nat, proposal: nat): (p: nat)
    requires n > 0
    ensures p < n
  {
    if proposal < n then proposal else Owner(n, proposal - n)
  }

  lemma {:induction false} OwnerIsRemainder(n: nat, p: nat, round: nat)
    requires p < n
    ensures Owner(n, p + round * n) == p
  {
    if round > 0 {
      assert p + round * n - n == p + (round - 1) * n && p + round * n >= n;
      OwnerIsRemainder(n, p, round - 1);
    }
  }

  ghost predicate Shape(c: Config, s: System) {
    && c.n > 0
    && |s.acceptors| == |s.proposers| == c.n
    && (forall a :: 0 <= a < c.n ==> s.acceptors[a].id == a)
    && (forall p :: 0 <= p < c.n ==> s.proposers[p].id == p && Owner(c.n, s.proposers[p].num) == p)
  }

  /** A request lies within what its sender has used, and a request under the
      sender's current number belongs to the current round. */
  ghost predicate WithinRound(p: Proposer, m: Message) {
    && IsRequest(m) && m.client.Some? && m.rproposal == NO_PROPOSAL
    && m.proposal <= p.num && m.instance <= p.instance
    && (m.proposal == p.num ==>
          && m.instance == p.instance
          && (p.phase.Accepting? || (m.kind.PREPARE? && (p.phase.Proposing? || p.phase.Accept?))))
  }

  ghost predicate RequestsOwned(c: Config, s: System)
    requires Shape(c, s)
  {
    forall m :: m in s.requests ==>
      m.origin < c.n && Owner(c.n, m.proposal) == m.origin && WithinRound(s.proposers[m.origin], m)
  }

  /** One proposal number, one value, one instance. */
  ghost predicate OneRequestPerNumber(requests: set<Message>) {
    forall m1, m2 :: m1 in requests && m2 in requests && m1.proposal == m2.proposal ==>
      m1.instance == m2.instance && (m1.kind == m2.kind ==> m1 == m2)
  }

  ghost predicate RepliesOwned(c: Config, s: System)
    requires Shape(c, s)
  {
    forall k :: k in s.replies ==>
      && k.dst < c.n && k.msg.origin < c.n
      && !IsRequest(k.msg)
      && Owner(c.n, k.msg.proposal) == k.dst
      && k.msg.instance <= s.proposers[k.dst].instance
  }

  /** Server a accepted v under number k at instance i, and said so. */
  predicate Voted(n: nat, replies: set<Packet>, a: nat, i: nat, k: nat, v: Value)
    requires n > 0
  {
    Packet(Owner(n, k), AcceptAckMsg(k, i, v, a)) in replies
  }

  /** An accept reply answers an accept request and bounds the voter's entry. */
  ghost predicate VoteRecorded(c: Config, s: System, k: Packet)
    requires Shape(c, s)
  {
    && k.msg.origin < c.n
    && k.msg.instance in s.acceptors[k.msg.origin].history
    && k.msg.proposal <= s.acceptors[k.msg.origin].history[k.msg.instance].accp
    && k.msg == AcceptAckMsg(k.msg.proposal, k.msg.instance, ValueOf(k.msg), k.msg.origin)
    && AcceptMsg(k.msg.proposal, k.msg.instance, ValueOf(k.msg), k.dst) in s.requests
  }

  ghost predicate VotesRecorded(c: Config, s: System)
    requires Shape(c, s)
  {
    forall k :: k in s.replies && k.msg.kind.ACCEPT_ACK? ==> VoteRecorded(c, s, k)
  }

  ghost predicate EntryBacked(c: Config, s: System, a: nat, i: nat)
    requires Shape(c, s) && a < c.n && i in s.acceptors[a].history
  {
    var e := s.acceptors[a].history[i];
    || (e.accp == NO_PROPOSAL && e.accv == NoValue && e.cid == None)
    || (0 <= e.accp <= e.prep && Voted(c.n, s.replies, a, i, e.accp, Accepted(e)))
  }

  ghost predicate EntriesBacked(c: Config, s: System)
    requires Shape(c, s)
  {
    forall a, i :: 0 <= a < c.n && i in s.acceptors[a].history ==> EntryBacked(c, s, a, i)
  }

  /** A prepare reply is a promise, and a NACK names a value that was really offered. */
  ghost predicate PromiseRecorded(c: Config, s: System, k: Packet)
    requires Shape(c, s)
  {
    && k.msg.origin < c.n
    && k.msg.instance in s.acceptors[k.msg.origin].history
    && k.msg.proposal <= s.acceptors[k.msg.origin].history[k.msg.instance].prep
    && k.msg.rproposal < k.msg.proposal
    && (if k.msg.kind.PREPARE_NACK?
        then k.msg.rproposal >= 0
             && AcceptMsg(k.msg.rproposal, k.msg.instance, ValueOf(k.msg), Owner(c.n, k.msg.rproposal)) in s.requests
        else k.msg.rproposal == NO_PROPOSAL)
  }

  ghost predicate PromisesRecorded(c: Config, s: System)
    requires Shape(c, s)
  {
    forall k :: k in s.replies && IsPrepareReply(k.msg) ==> PromiseRecorded(c, s, k)
  }

  /** Below its promise a server has voted only up to the number it reported. */
  ghost predicate PromisesKept(replies: set<Packet>) {
    forall k, j ::
      && k in replies && IsPrepareReply(k.msg) && j in replies && j.msg.kind.ACCEPT_ACK?
      && j.msg.origin == k.msg.origin && j.msg.instance == k.msg.instance && j.msg.proposal < k.msg.proposal
      ==> j.msg.proposal <= k.msg.rproposal
  }

  /** A server answers one prepare request once. */
  ghost predicate OnePromisePerNumber(replies: set<Packet>) {
    forall k, j ::
      && k in replies && IsPrepareReply(k.msg) && j in replies && IsPrepareReply(j.msg)
      && j.msg.origin == k.msg.origin && j.msg.instance == k.msg.instance && j.msg.proposal == k.msg.proposal
      ==> j == k
  }

  /** The acknowledgement a server sends when it first hears of an instance; later
      acknowledgements carry no client. */
  predicate IsFirstAck(m: Message) {
    m.kind.PREPARE_ACK? && m.client.Some?
  }

  ghost predicate OneFirstAckPerInstance(replies: set<Packet>) {
    forall k, j ::
      && k in replies && IsFirstAck(k.msg) && j in replies && IsFirstAck(j.msg)
      && j.msg.origin == k.msg.origin && j.msg.instance == k.msg.instance
      ==> j == k
  }

  /** A prepare reply that counts for the current round. */
  predicate CountsAsPromise(v: Variant, p: Proposer, m: Message) {
    && IsPrepareReply(m) && m.instance == p.instance
    && (v.matchProposal ==> m.proposal == p.num)
    && (v.abortOnNone ==> m.client.Some?)
  }

  /** The replies behind the count of a proposer that waits for promises. */
  ghost predicate PromisesCounted(v: Variant, p: Proposer) {
    && |p.counted| == p.responses && p.counted <= p.seen
    && (forall m :: m in p.counted ==> CountsAsPromise(v, p, m) && (m.kind.PREPARE_NACK? ==> m in p.nacks))
    && (forall m :: m in p.nacks ==> m in p.counted && m.kind.PREPARE_NACK?)
  }

  /** The replies behind the count of a proposer that waits for votes. */
  ghost predicate VotesCounted(p: Proposer) {
    && |p.counted| == p.responses && p.counted <= p.seen
    && (forall m :: m in p.counted ==> m.kind.ACCEPT_ACK? && m.instance == p.instance && m.proposal == p.num)
  }

  ghost predicate CountSound(c: Config, p: Proposer, requests: set<Message>) {
    && (p.phase.Proposing? ==> PromisesCounted(c.variant, p) && !Majority(c.n, p.responses))
    && (p.phase.Accepting? ==>
          && VotesCounted(p) && !Majority(c.n, p.responses)
          && p.learnt.client.Some?
          && AcceptMsg(p.num, p.instance, p.learnt, p.id) in requests)
  }

  ghost predicate ProposersSound(c: Config, s: System)
    requires Shape(c, s)
  {
    forall p :: 0 <= p < c.n ==>
      && (forall m :: m in s.proposers[p].seen ==> Packet(p, m) in s.replies)
      && (!s.proposers[p].halted ==> CountSound(c, s.proposers[p], s.requests))
  }

  ghost predicate BallotInv(c: Config, s: System) {
    && Shape(c, s)
    && RequestsOwned(c, s)
    && OneRequestPerNumber(s.requests)
    && RepliesOwned(c, s)
    && VotesRecorded(c, s)
    && EntriesBacked(c, s)
    && PromisesRecorded(c, s)
    && PromisesKept(s.replies)
    && OnePromisePerNumber(s.replies)
    && OneFirstAckPerInstance(s.replies)
    && ProposersSound(c, s)
  }
}
