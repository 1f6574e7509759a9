/** Whole rounds of one server, from READY to a resolved instance, in a group of any size
    from three servers on. */
module RoundRuns {
  import opened Options
  import opened Commands
  import opened Messages
  import opened Acceptors
  import opened Proposers
  import opened Cluster
  import opened Ballots
  import opened BallotSteps
  import opened Consensus
  import opened Replicas
  import opened ProposerProcesses
  import opened ProposerRules
  import opened Quorums
  import opened Rounds
  import opened Scenes
  import opened Deliveries
  import opened AcceptorRules

  // ---------------------------------------------------------------------
  // What is still unheard of
  // ---------------------------------------------------------------------

  /** A request that was not sent is in no message history. */
  lemma Unsent(c: Config, r: Run, m: Message, a: nat)
    requires c.n > 0 && Valid(c, r) && a < c.n && m !in Final(c, r).requests
    ensures a < |Final(c, r).acceptors| && m !in Final(c, r).acceptors[a].seen
    ensures Final(c, r).acceptors[a].id == a
  {
    AcceptorHoldsDeliveries(c, r, a);
    DeliveredWereSent(c, r, a);
  }

  lemma RepliesComeFromServers(c: Config, r: Run, k: Packet)
    requires c.n > 0 && Valid(c, r) && k in Final(c, r).replies
    ensures k.msg.origin < c.n
  {
    BallotInvAlways(c, r);
  }

  /** A reply goes to a server that sent a request under its number. */
  lemma ReplyHasRequest(c: Config, r: Run, k: Packet) returns (m: Message)
    requires c.n > 0 && Valid(c, r) && k in Final(c, r).replies
    ensures m in Final(c, r).requests && m.origin == k.dst && m.proposal == k.msg.proposal
  {
    RepliesComeFromServers(c, r, k);
    var a := k.msg.origin;
    var ms := Delivered(r, a);
    RepliesExactly(c, r, a);
    var j: nat :| Answered(a, ms, j, k);
    m := ms[j];
    DeliveredWereSent(c, r, a);
  }

  /** In READY everything seen is older than the next number. */
  lemma SeenIsOld(c: Config, r: Run, p: nat)
    requires c.n > 0 && Valid(c, r) && InPhase(Final(c, r), p, Ready)
    ensures var q := Final(c, r).proposers[p];
      && (forall m :: m in q.seen ==> m.proposal < q.num)
      && PrepareMsg(q.num, q.instance, p, q.client) !in Final(c, r).requests
  {
    BallotInvAlways(c, r);
    var q := Final(c, r).proposers[p];
    forall m | m in q.seen
      ensures m.proposal < q.num
    {
      var asked := ReplyHasRequest(c, r, Packet(p, m));
      EachRoundIsHigher(c, r, p, asked);
    }
    var next := PrepareMsg(q.num, q.instance, p, q.client);
    if next in Final(c, r).requests {
      EachRoundIsHigher(c, r, p, next);
    }
  }

  /** In ACCEPT nothing was offered under the current number, and no vote for it seen. */
  lemma VotesAreNew(c: Config, r: Run, p: nat, v: Value)
    requires c.n > 0 && Valid(c, r) && InPhase(Final(c, r), p, Accept)
    ensures var q := Final(c, r).proposers[p];
      && (forall m :: m in q.seen && m.kind.ACCEPT_ACK? ==> m.proposal != q.num)
      && AcceptMsg(q.num, q.instance, v, p) !in Final(c, r).requests
  {
    BallotInvAlways(c, r);
    var s := Final(c, r);
    var q := s.proposers[p];
    forall m | m in s.requests && m.origin == p && m.proposal == q.num
      ensures m.kind.PREPARE?
    {
      assert WithinRound(s.proposers[m.origin], m);
    }
    forall m | m in q.seen && m.kind.ACCEPT_ACK?
      ensures m.proposal != q.num
    {
      assert VoteRecorded(c, s, Packet(p, m));
    }
  }

  // ---------------------------------------------------------------------
  // A request for all others
  // ---------------------------------------------------------------------

  /** From s to t all acceptors but the origin of m have taken it and answered. */
  ghost predicate AllAnswer(n: nat, s: System, t: System, m: Message)
    requires IsRequest(m)
  {
    && |s.acceptors| == |t.acceptors| == n && m.origin < n
    && t.proposers == s.proposers && t.requests == s.requests
    && t.acceptors[m.origin] == s.acceptors[m.origin]
    && forall a: nat :: a < n && a != m.origin ==> AnswersAt(s, t, m, a)
  }

  ghost predicate AnswersAt(s: System, t: System, m: Message, a: nat)
    requires IsRequest(m) && a < |s.acceptors| && a < |t.acceptors|
  {
    var (g, reply) := Respond(a, s.acceptors[a].history, m);
    t.acceptors[a].history == g && (reply.Some? ==> Packet(m.origin, reply.value) in t.replies)
  }

  lemma AllHear(c: Config, r: Run, m: Message) returns (after: Run)
    requires c.n > 0 && Valid(c, r) && IsRequest(m) && m in Final(c, r).requests && m.origin < c.n
    requires |Final(c, r).acceptors| == |Final(c, r).proposers| == c.n
    requires forall a :: 0 <= a < c.n ==> m !in Final(c, r).acceptors[a].seen && Final(c, r).acceptors[a].id == a
    ensures Valid(c, after) && Extends(r, after) && AllAnswer(c.n, Final(c, r), Final(c, after), m)
  {
    var s := Final(c, r);
    var y := SpreadRequest(c, Scene(r, s), m, c.n);
    after := y.run;
    forall a: nat | a < c.n && a != m.origin
      ensures AnswersAt(s, y.state, m, a)
    {
      assert Receive(s.acceptors[a], m).1 == Respond(a, s.acceptors[a].history, m).1;
    }
  }

  /** The acceptor asked as number j of a majority without p. */
  function Other(p: nat, j: nat): nat {
    if j < p then j else j + 1
  }

  /** The replies of a majority of acceptors, p left out. */
  function Answering(n: nat, s: System, m: Message, p: nat): seq<Message>
    requires IsRequest(m) && n >= 3 && |s.acceptors| == n
  {
    seq(n / 2 + 1, (j: nat) requires j < n / 2 + 1 => Reply(s, m, Other(p, j)))
  }

  function Reply(s: System, m: Message, a: nat): Message
    requires IsRequest(m) && a < |s.acceptors|
  {
    var reply := Respond(a, s.acceptors[a].history, m).1;
    if reply.Some? then reply.value else m
  }

  lemma AnswersDiffer(n: nat, s: System, m: Message, p: nat)
    requires IsRequest(m) && n >= 3 && |s.acceptors| == n
    requires forall a: nat :: a < n && a != p ==> Respond(a, s.acceptors[a].history, m).1.Some?
    ensures MajorityOf(n, Answering(n, s, m, p))
  {
    var queue := Answering(n, s, m, p);
    forall i: nat, j: nat | i < j < |queue|
      ensures queue[i] != queue[j]
    {
      assert queue[i] == Reply(s, m, Other(p, i)) && queue[j] == Reply(s, m, Other(p, j));
      assert Other(p, i) < Other(p, j) < n;
      assert queue[i].origin == Other(p, i) && queue[j].origin == Other(p, j);
    }
  }

  // ---------------------------------------------------------------------
  // Asking
  // ---------------------------------------------------------------------

  /** An acceptor that has not heard of instance i, or has accepted w there under a lower
      number: its answer to num is counted by every variant. */
  predicate Willing(h: History, i: nat, num: nat, w: Value) {
    i !in h || (h[i].prep < num && h[i].accp != NO_PROPOSAL && Accepted(h[i]) == w)
  }

  /** The acceptor has promised num at instance i, and nothing else has changed. */
  predicate Renews(h: History, g: History, i: nat, num: nat) {
    i in g && g[i].prep == num && g == h[i := g[i]]
  }

  lemma WillingAnswers(v: Variant, q: Proposer, a: nat, h: History, w: Value)
    requires Willing(h, q.instance, q.num, w) && w.client.Some? && forall m :: m in q.seen ==> m.proposal < q.num
    ensures var (g, reply) := Respond(a, h, PrepareMsg(q.num, q.instance, q.id, q.client));
      && Renews(h, g, q.instance, q.num) && reply.Some?
      && NewPromise(v, q, reply.value) && !Breaks(v, reply.value) && !IsRequest(reply.value)
      && (reply.value.kind.PREPARE_NACK? <==> q.instance in h)
      && (reply.value.kind.PREPARE_NACK? ==> ValueOf(reply.value) == w)
  {
  }

  /** The system seen from server p: its proposer, and the histories of the others. */
  ghost predicate Stands(n: nat, s: System, p: nat, q: Proposer) {
    && n >= 3 && p < n && |s.acceptors| == |s.proposers| == n && s.proposers[p] == q && q.id == p
  }

  ghost predicate AllWilling(n: nat, s: System, p: nat, q: Proposer, w: Value) {
    && Stands(n, s, p, q) && w.client.Some?
    && forall a: nat :: a < n && a != p ==> Willing(s.acceptors[a].history, q.instance, q.num, w)
  }

  /** From s to t only the acceptors of the other servers moved: they promised num. */
  ghost predicate AllPromise(n: nat, s: System, t: System, p: nat, i: nat, num: nat) {
    && |t.acceptors| == |s.acceptors| == n && p < n
    && t.acceptors[p] == s.acceptors[p]
    && forall a: nat :: a < n && a != p ==> Renews(s.acceptors[a].history, t.acceptors[a].history, i, num)
  }

  /** A majority of replies that the waiting proposer q of server p counts; whatever
      refuses names w. */
  ghost predicate Favourable(v: Variant, n: nat, replies: set<Packet>, p: nat, q: Proposer, w: Value,
                             queue: seq<Message>) {
    && MajorityOf(n, queue)
    && forall m :: m in queue ==>
         && Packet(p, m) in replies && NewPromise(v, q, m) && !Breaks(v, m) && !IsRequest(m)
         && (m.kind.PREPARE_NACK? ==> ValueOf(m) == w)
  }

  function Asked(q: Proposer): Message {
    PrepareMsg(q.num, q.instance, q.id, q.client)
  }

  function Waiting(q: Proposer): Proposer {
    q.(phase := Proposing, counted := {}, responses := 0, nacks := [])
  }

  /** Server p has asked, and all others have answered. */
  ghost predicate AskedAll(c: Config, s: System, t: System, p: nat, q: Proposer) {
    && p < |s.proposers| && t.proposers == s.proposers[p := Waiting(q)] && AllPromise(c.n, s, t, p, q.instance, q.num)
    && forall a: nat :: a < c.n && a != p ==> Packet(p, Reply(s, Asked(q), a)) in t.replies
  }

  lemma AskAll(c: Config, r: Run, p: nat, q: Proposer, w: Value) returns (after: Run)
    requires c.n > 0 && Valid(c, r) && InPhase(Final(c, r), p, Ready) && AllWilling(c.n, Final(c, r), p, q, w)
    ensures Valid(c, after) && Extends(r, after) && AskedAll(c, Final(c, r), Final(c, after), p, q)
  {
    var s, m := Final(c, r), Asked(q);
    SeenIsOld(c, r, p);
    var r1 := Then(r, SendsPrepare(p));
    assert Final(c, r1) == s.(proposers := s.proposers[p := Waiting(q)], requests := s.requests + {m});
    forall a: nat | a < c.n
      ensures m !in s.acceptors[a].seen && s.acceptors[a].id == a
    {
      Unsent(c, r, m, a);
    }
    after := AllHear(c, r1, m);
    ExtendsThrough(r, r1, after);
    forall a: nat | a < c.n && a != p
      ensures Renews(s.acceptors[a].history, Final(c, after).acceptors[a].history, q.instance, q.num)
      ensures Packet(p, Reply(s, m, a)) in Final(c, after).replies
    {
      assert AnswersAt(Final(c, r1), Final(c, after), m, a);
      WillingAnswers(c.variant, q, a, s.acceptors[a].history, w);
    }
  }

  /** The majority that answered, without p. */
  lemma AnswersFavour(c: Config, s: System, t: System, p: nat, q: Proposer, w: Value)
    requires AllWilling(c.n, s, p, q, w) && AskedAll(c, s, t, p, q)
    requires forall m :: m in q.seen ==> m.proposal < q.num
    ensures var queue := Answering(c.n, s, Asked(q), p);
      && Favourable(c.variant, c.n, t.replies, p, Waiting(q), w, queue)
      && forall j: nat :: j <= c.n / 2 ==>
           (queue[j].kind.PREPARE_NACK? <==> q.instance in s.acceptors[Other(p, j)].history)
  {
    var m, queue := Asked(q), Answering(c.n, s, Asked(q), p);
    forall a: nat | a < c.n && a != p
      ensures var x := Reply(s, m, a);
        && Respond(a, s.acceptors[a].history, m).1.Some?
        && NewPromise(c.variant, Waiting(q), x) && !Breaks(c.variant, x) && !IsRequest(x)
        && (x.kind.PREPARE_NACK? <==> q.instance in s.acceptors[a].history)
        && (x.kind.PREPARE_NACK? ==> ValueOf(x) == w)
    {
      WillingAnswers(c.variant, q, a, s.acceptors[a].history, w);
    }
    AnswersDiffer(c.n, s, m, p);
    forall j: nat | j < |queue|
      ensures queue[j] == Reply(s, m, Other(p, j)) && Other(p, j) < c.n && Other(p, j) != p
    {
    }
  }

  // ---------------------------------------------------------------------
  // Deciding
  // ---------------------------------------------------------------------

  /** A beginning of the queue that is a majority is the whole of it. */
  lemma WholeQueue(v: Variant, n: nat, p: Proposer, queue: seq<Message>, k: nat)
    requires MajorityOf(n, queue) && p.counted == {} && SufficesAt(v, n, p, queue, k)
    ensures k == |queue|
  {
    var taken := Promises(v, p, SetOf(queue[..k]));
    SetOfDistinct(queue[..k]);
    SubsetSize(taken, SetOf(queue[..k]));
    assert p.counted + taken == taken;
  }

  lemma WholeQueueSuffices(v: Variant, n: nat, p: Proposer, queue: seq<Message>)
    requires MajorityOf(n, queue) && p.counted == {}
    requires forall m :: m in queue ==> NewPromise(v, p, m) && !Breaks(v, m)
    ensures SufficesAt(v, n, p, queue, |queue|)
    ensures Promises(v, p, SetOf(queue)) == SetOf(queue)
  {
    assert queue[..|queue|] == queue;
    SetOfDistinct(queue);
    assert Promises(v, p, SetOf(queue)) == SetOf(queue);
    assert p.counted + SetOf(queue) == SetOf(queue);
  }

  lemma WholeQueueDecides(c: Config, q: Proposer, queue: seq<Message>, done: Proposer)
    requires MajorityOf(c.n, queue) && q.counted == {} && PromiseOutcome(c, q, queue, done)
    requires forall m :: m in queue ==> NewPromise(c.variant, q, m) && !Breaks(c.variant, m)
    ensures DecidesByRule(c, q, Refusals(SetOf(queue)), done)
  {
    WholeQueueSuffices(c.variant, c.n, q, queue);
    var k: nat :| DecidedAt(c, q, queue, k, done);
    WholeQueue(c.variant, c.n, q, queue, k);
    assert queue[..k] == queue && q.counted + SetOf(queue) == SetOf(queue);
  }

  lemma DecidesOnAll(c: Config, r: Run, p: nat, q: Proposer, w: Value, queue: seq<Message>) returns (after: Run)
    requires c.n > 0 && Valid(c, r) && InPhase(Final(c, r), p, Proposing) && Final(c, r).proposers[p] == q
    requires q.counted == {} && Favourable(c.variant, c.n, Final(c, r).replies, p, q, w, queue)
    ensures Valid(c, after) && Extends(r, after) && p < |Final(c, after).proposers|
    ensures OnlyMoved(Final(c, r), Final(c, after), p, Final(c, after).proposers[p])
    ensures DecidesByRule(c, q, Refusals(SetOf(queue)), Final(c, after).proposers[p])
  {
    WaitingKeepsCount(c, r, p);
    var pick := HighestExists(c.variant, AbsorbAll(c.variant, c.n, q, queue).nacks);
    after := PromiseRoundIsRun(c, r, p, queue, pick);
    PromiseRoundExactly(c, r, p, queue, pick);
    WholeQueueDecides(c, q, queue, PromiseRound(c.variant, c.n, q, queue, pick));
  }

  /** What the refusals of a favourable queue teach. */
  lemma LearnsFrom(v: Variant, queue: seq<Message>, w: Value, before: Value, after: Value)
    requires forall m :: m in queue && m.kind.PREPARE_NACK? ==> ValueOf(m) == w
    requires Taught(v, Refusals(SetOf(queue)), before, after)
    ensures (exists m :: m in queue && m.kind.PREPARE_NACK?) ==> after == w
    ensures (forall m :: m in queue ==> !m.kind.PREPARE_NACK?) ==> after == before
  {
    if m :| m in queue && m.kind.PREPARE_NACK? {
      assert m in Refusals(SetOf(queue));
    }
    if forall m :: m in queue ==> !m.kind.PREPARE_NACK? {
      assert Refusals(SetOf(queue)) == {};
    }
  }

  /** Server p knows, by the answer of an acceptor it asks, that w was accepted; or none of
      the others has heard of the instance. */
  ghost predicate Informed(n: nat, s: System, p: nat, q: Proposer, known: bool) {
    && n >= 3 && |s.acceptors| == n
    && if known then q.instance in s.acceptors[Other(p, 1)].history
       else forall a: nat :: a < n && a != p ==> q.instance !in s.acceptors[a].history
  }

  /** The value that the round of q goes on with. */
  function Outcome(q: Proposer, w: Value, known: bool): Value {
    if known then w else q.learnt
  }

  /** The proposer has decided to offer v under its current number. */
  predicate Offering(q: Proposer, v: Value, d: Proposer) {
    d == q.(phase := Accept, learnt := v, seen := d.seen, counted := d.counted, responses := d.responses,
            nacks := d.nacks)
  }

  lemma QueueTeaches(c: Config, s: System, t: System, p: nat, q: Proposer, w: Value, known: bool, d: Proposer)
    requires AllWilling(c.n, s, p, q, w) && AskedAll(c, s, t, p, q) && Informed(c.n, s, p, q, known)
    requires forall m :: m in q.seen ==> m.proposal < q.num
    requires DecidesByRule(c, Waiting(q), Refusals(SetOf(Answering(c.n, s, Asked(q), p))), d)
    requires !WaitsForUnlock(q.(learnt := Outcome(q, w, known)))
    ensures Offering(q, Outcome(q, w, known), d)
  {
    AnswersFavour(c, s, t, p, q, w);
    var queue := Answering(c.n, s, Asked(q), p);
    LearnsFrom(c.variant, queue, w, q.learnt, d.learnt);
    if known {
      assert queue[1].kind.PREPARE_NACK? && queue[1] in queue;
    } else {
      forall m | m in queue
        ensures !m.kind.PREPARE_NACK?
      {
        var j :| 0 <= j < |queue| && queue[j] == m;
        assert Other(p, j) < c.n && Other(p, j) != p;
      }
    }
  }

  /** Server p asks, is answered by all others, and decides. */
  lemma Adopts(c: Config, r: Run, p: nat, q: Proposer, w: Value, known: bool) returns (after: Run, d: Proposer)
    requires c.n > 0 && Valid(c, r) && InPhase(Final(c, r), p, Ready) && AllWilling(c.n, Final(c, r), p, q, w)
    requires Informed(c.n, Final(c, r), p, q, known)
    requires !WaitsForUnlock(q.(learnt := Outcome(q, w, known)))
    ensures Valid(c, after) && Extends(r, after) && Offering(q, Outcome(q, w, known), d)
    ensures Final(c, after).proposers == Final(c, r).proposers[p := d]
    ensures AllPromise(c.n, Final(c, r), Final(c, after), p, q.instance, q.num)
  {
    SeenIsOld(c, r, p);
    var asked := AskAll(c, r, p, q, w);
    var s, t := Final(c, r), Final(c, asked);
    AnswersFavour(c, s, t, p, q, w);
    after := DecidesOnAll(c, asked, p, Waiting(q), w, Answering(c.n, s, Asked(q), p));
    ExtendsThrough(r, asked, after);
    d := Final(c, after).proposers[p];
    QueueTeaches(c, s, t, p, q, w, known, d);
    assert s.proposers[p := Waiting(q)][p := d] == s.proposers[p := d];
  }

  // ---------------------------------------------------------------------
  // Offering
  // ---------------------------------------------------------------------

  /** The acceptor has accepted v under num at instance i, and nothing else has changed. */
  predicate Accepts(h: History, g: History, i: nat, num: nat, v: Value) {
    g == h[i := Entry(num, num, v.payload, v.client)]
  }

  ghost predicate AllAccept(n: nat, s: System, t: System, p: nat, i: nat, num: nat, v: Value) {
    && |t.acceptors| == |s.acceptors| == n && p < n
    && t.acceptors[p] == s.acceptors[p]
    && forall a: nat :: a < n && a != p ==> Accepts(s.acceptors[a].history, t.acceptors[a].history, i, num, v)
  }

  function OfferOf(d: Proposer): Message {
    AcceptMsg(d.num, d.instance, d.learnt, d.id)
  }

  function Polling(d: Proposer): Proposer {
    d.(phase := Accepting, counted := {}, responses := 0)
  }

  /** An acceptor that has promised exactly the number offered. */
  predicate HasPromised(h: History, i: nat, num: nat) {
    i in h && h[i].prep == num
  }

  lemma ReadyAccepts(a: nat, h: History, d: Proposer)
    requires HasPromised(h, d.instance, d.num)
    ensures var (g, reply) := Respond(a, h, OfferOf(d));
      Accepts(h, g, d.instance, d.num, d.learnt)
      && reply == Some(AcceptAckMsg(d.num, d.instance, d.learnt, a))
  {
  }

  ghost predicate AllReady(n: nat, s: System, p: nat, d: Proposer) {
    && Stands(n, s, p, d)
    && forall a: nat :: a < n && a != p ==> HasPromised(s.acceptors[a].history, d.instance, d.num)
  }

  /** Server p has made its offer, and all others have voted. */
  ghost predicate OfferedAll(c: Config, s: System, t: System, p: nat, d: Proposer) {
    && p < |s.proposers| && t.proposers == s.proposers[p := Polling(d)]
    && AllAccept(c.n, s, t, p, d.instance, d.num, d.learnt)
    && forall a: nat :: a < c.n && a != p ==> Packet(p, Reply(s, OfferOf(d), a)) in t.replies
  }

  lemma OfferAll(c: Config, r: Run, p: nat, d: Proposer) returns (after: Run)
    requires c.n > 0 && Valid(c, r) && InPhase(Final(c, r), p, Accept) && AllReady(c.n, Final(c, r), p, d)
    ensures Valid(c, after) && Extends(r, after) && OfferedAll(c, Final(c, r), Final(c, after), p, d)
  {
    var s, m := Final(c, r), OfferOf(d);
    ReplicaInvAlways(c, r);
    VotesAreNew(c, r, p, d.learnt);
    var r1 := Then(r, SendsAccept(p));
    assert Final(c, r1) == s.(proposers := s.proposers[p := Polling(d)], requests := s.requests + {m});
    forall a: nat | a < c.n
      ensures m !in s.acceptors[a].seen && s.acceptors[a].id == a
    {
      Unsent(c, r, m, a);
    }
    after := AllHear(c, r1, m);
    ExtendsThrough(r, r1, after);
    forall a: nat | a < c.n && a != p
      ensures Accepts(s.acceptors[a].history, Final(c, after).acceptors[a].history, d.instance, d.num, d.learnt)
      ensures Packet(p, Reply(s, m, a)) in Final(c, after).replies
    {
      assert AnswersAt(Final(c, r1), Final(c, after), m, a);
      ReadyAccepts(a, s.acceptors[a].history, d);
    }
  }

  /** A majority of votes that the waiting proposer counts. */
  lemma VotesElect(c: Config, s: System, t: System, p: nat, d: Proposer)
    requires AllReady(c.n, s, p, d) && OfferedAll(c, s, t, p, d)
    requires forall m :: m in d.seen && m.kind.ACCEPT_ACK? ==> m.proposal != d.num
    ensures var queue := Answering(c.n, s, OfferOf(d), p);
      && Elected(c.n, Polling(d), queue)
      && forall m :: m in queue ==> Packet(p, m) in t.replies
  {
    var m, queue := OfferOf(d), Answering(c.n, s, OfferOf(d), p);
    forall a: nat | a < c.n && a != p
      ensures Respond(a, s.acceptors[a].history, m).1.Some?
      ensures NewVote(Polling(d), Reply(s, m, a))
    {
      ReadyAccepts(a, s.acceptors[a].history, d);
    }
    AnswersDiffer(c.n, s, m, p);
    forall x | x in queue
      ensures Packet(p, x) in t.replies && NewVote(Polling(d), x)
    {
      var j :| 0 <= j < |queue| && queue[j] == x;
      assert x == Reply(s, m, Other(p, j)) && Other(p, j) < c.n && Other(p, j) != p;
    }
    SetOfDistinct(queue);
    assert Votes(Polling(d), SetOf(queue)) == SetOf(queue);
    assert {} + SetOf(queue) == SetOf(queue);
  }

  /** Server p offers its value, all others accept it, and p resolves the instance. */
  lemma ResolvesOffer(c: Config, r: Run, p: nat, d: Proposer) returns (after: Run, done: Proposer)
    requires c.n > 0 && Valid(c, r) && InPhase(Final(c, r), p, Accept) && AllReady(c.n, Final(c, r), p, d)
    ensures Valid(c, after) && Extends(r, after) && ResolvesByRule(c, d, done)
    ensures Final(c, after).proposers == Final(c, r).proposers[p := done]
    ensures AllAccept(c.n, Final(c, r), Final(c, after), p, d.instance, d.num, d.learnt)
  {
    VotesAreNew(c, r, p, d.learnt);
    var offered := OfferAll(c, r, p, d);
    var s, t := Final(c, r), Final(c, offered);
    VotesElect(c, s, t, p, d);
    var queue := Answering(c.n, s, OfferOf(d), p);
    after := VoteRoundIsRun(c, offered, p, queue);
    VoteRoundExactly(c, offered, p, queue);
    ExtendsThrough(r, offered, after);
    done := Final(c, after).proposers[p];
    assert s.proposers[p := Polling(d)][p := done] == s.proposers[p := done];
  }

  // ---------------------------------------------------------------------
  // A whole round
  // ---------------------------------------------------------------------

  /** The round of server p changed only what it had to: p resolved its instance with v,
      and all other acceptors hold v there. */
  ghost predicate RoundDone(c: Config, s: System, t: System, p: nat, q: Proposer, v: Value, done: Proposer) {
    && p < |s.proposers| && t.proposers == s.proposers[p := done]
    && ResolvesByRule(c, q.(learnt := v), done)
    && AllAccept(c.n, s, t, p, q.instance, q.num, v)
  }

  lemma PromisedThenAccepted(c: Config, s: System, t: System, u: System, p: nat, i: nat, num: nat, v: Value)
    requires AllPromise(c.n, s, t, p, i, num) && AllAccept(c.n, t, u, p, i, num, v)
    ensures AllAccept(c.n, s, u, p, i, num, v)
  {
    forall a: nat | a < c.n && a != p
      ensures Accepts(s.acceptors[a].history, u.acceptors[a].history, i, num, v)
    {
      var h, g := s.acceptors[a].history, t.acceptors[a].history;
      var e := Entry(num, num, v.payload, v.client);
      var promised: History := h[i := g[i]];
      assert g == promised && promised[i := e] == h[i := e];
    }
  }

  /** One undisturbed round of server p, in every variant: it goes on with the value that
      the others have accepted, or with its own if they know nothing of the instance. */
  lemma WholeRound(c: Config, r: Run, p: nat, q: Proposer, w: Value, known: bool) returns (after: Run, done: Proposer)
    requires c.n > 0 && Valid(c, r) && InPhase(Final(c, r), p, Ready) && AllWilling(c.n, Final(c, r), p, q, w)
    requires Informed(c.n, Final(c, r), p, q, known)
    requires !WaitsForUnlock(q.(learnt := Outcome(q, w, known)))
    ensures Valid(c, after) && Extends(r, after)
    ensures RoundDone(c, Final(c, r), Final(c, after), p, q, Outcome(q, w, known), done)
  {
    var adopted, d := Adopts(c, r, p, q, w, known);
    var s, t := Final(c, r), Final(c, adopted);
    forall a: nat | a < c.n && a != p
      ensures HasPromised(t.acceptors[a].history, d.instance, d.num)
    {
      assert Renews(s.acceptors[a].history, t.acceptors[a].history, q.instance, q.num);
    }
    after, done := ResolvesOffer(c, adopted, p, d);
    ExtendsThrough(r, adopted, after);
    PromisedThenAccepted(c, s, t, Final(c, after), p, q.instance, q.num, d.learnt);
    assert s.proposers[p := d][p := done] == s.proposers[p := done];
  }

  // ---------------------------------------------------------------------
  // First and second to ask
  // ---------------------------------------------------------------------

  /** No acceptor has heard of instance i or a later one. */
  ghost predicate Unheard(s: System, i: nat) {
    forall a: nat, j: nat :: a < |s.acceptors| && j in s.acceptors[a].history ==> j < i
  }

  /** The proposer of server p is q, and it is about to ask. */
  ghost predicate AboutToAsk(c: Config, r: Run, p: nat, q: Proposer)
    requires Valid(c, r)
  {
    c.n >= 3 && p < c.n && InPhase(Final(c, r), p, Ready) && Final(c, r).proposers[p] == q
  }

  /** The acceptors of all servers from the first one on hold v at instance i, under num. */
  ghost predicate HeldFrom(s: System, first: nat, i: nat, num: nat, v: Value) {
    forall a: nat :: first <= a < |s.acceptors| ==>
      i in s.acceptors[a].history && s.acceptors[a].history[i] == Entry(num, num, v.payload, v.client)
  }

  /** Server p is the first to ask about an instance, and gets its own value through. */
  lemma FirstToAsk(c: Config, r: Run, p: nat, q: Proposer) returns (after: Run, done: Proposer)
    requires Valid(c, r) && AboutToAsk(c, r, p, q) && Unheard(Final(c, r), q.instance)
    requires !WaitsForUnlock(q) && q.learnt.client.Some?
    ensures Valid(c, after) && Extends(r, after) && |Final(c, after).acceptors| == c.n
    ensures RoundDone(c, Final(c, r), Final(c, after), p, q, q.learnt, done)
    ensures Unheard(Final(c, after), q.instance + 1)
    ensures p == 0 ==>
      q.instance !in Final(c, after).acceptors[0].history
      && HeldFrom(Final(c, after), 1, q.instance, q.num, q.learnt)
  {
    BallotInvAlways(c, r);
    var s := Final(c, r);
    assert q.(learnt := q.learnt) == q;
    assert AllWilling(c.n, s, p, q, q.learnt);
    after, done := WholeRound(c, r, p, q, q.learnt, false);
    NextUnheard(c, s, Final(c, after), p, q.instance, q.num, q.learnt);
  }

  lemma NextUnheard(c: Config, s: System, t: System, p: nat, i: nat, num: nat, v: Value)
    requires AllAccept(c.n, s, t, p, i, num, v) && Unheard(s, i + 1)
    ensures Unheard(t, i + 1)
  {
    forall a: nat, j: nat | a < c.n && j in t.acceptors[a].history
      ensures j < i + 1
    {
      if a != p {
        assert Accepts(s.acceptors[a].history, t.acceptors[a].history, i, num, v);
      }
    }
  }

  /** Server 1 asks about an instance that server 0 has resolved, and takes over its value. */
  lemma TakesOver(c: Config, r: Run, q: Proposer, num: nat, w: Value) returns (after: Run, done: Proposer)
    requires Valid(c, r) && AboutToAsk(c, r, 1, q) && Unheard(Final(c, r), q.instance + 1)
    requires |Final(c, r).acceptors| == c.n && q.instance !in Final(c, r).acceptors[0].history
    requires HeldFrom(Final(c, r), 2, q.instance, num, w) && num < q.num && w.client.Some?
    requires !WaitsForUnlock(q.(learnt := w))
    ensures Valid(c, after) && Extends(r, after)
    ensures RoundDone(c, Final(c, r), Final(c, after), 1, q, w, done)
    ensures Unheard(Final(c, after), q.instance + 1)
  {
    BallotInvAlways(c, r);
    var s := Final(c, r);
    assert Other(1, 1) == 2;
    assert AllWilling(c.n, s, 1, q, w);
    after, done := WholeRound(c, r, 1, q, w, true);
    NextUnheard(c, s, Final(c, after), 1, q.instance, q.num, w);
  }

  lemma TakesCommand(c: Config, r: Run, p: nat, command: Command, client: int) returns (after: Run)
    requires Valid(c, r) && InPhase(Final(c, r), p, Idle)
    ensures Valid(c, after) && Extends(r, after)
    ensures var s := Final(c, r);
      Final(c, after) == s.(proposers := s.proposers[p := s.proposers[p].(
        phase := Ready, command := command, client := client, learnt := Value(Cmd(command), Some(client)))])
  {
    after := Then(r, ClientSubmits(p, command, client));
  }
}
