/** Agreement: at most one value is chosen for an instance. */
module Consensus {
  import opened Messages
  import opened Proposers
  import opened Cluster
  import opened Ballots
  import opened BallotSteps
  import opened Quorums

  ghost predicate Elects(c: Config, s: System, i: nat, k: nat, v: Value, q: set<nat>)
    requires c.n > 0
  {
    Quorum(c.n, q) && forall a :: a in q ==> Voted(c.n, s.replies, a, i, k, v)
  }

  /** A majority accepted v under number k at instance i. */
  ghost predicate ChosenAt(c: Config, s: System, i: nat, k: nat, v: Value)
    requires c.n > 0
  {
    exists q :: Elects(c, s, i, k, v, q)
  }

  ghost predicate Chosen(c: Config, s: System, i: nat, v: Value)
    requires c.n > 0
  {
    exists k :: ChosenAt(c, s, i, k, v)
  }

  // ---------------------------------------------------------------------
  // The intended protocol: replies are matched, the highest accepted wins
  // ---------------------------------------------------------------------

  /** Server a has not voted under number m at instance i and never will. */
  ghost predicate WontVote(c: Config, s: System, a: nat, i: nat, m: nat)
    requires Shape(c, s) && a < c.n
  {
    && i in s.acceptors[a].history && m < s.acceptors[a].history[i].prep
    && forall k :: k in s.replies && k.msg.kind.ACCEPT_ACK? && k.msg.origin == a && k.msg.instance == i
         ==> k.msg.proposal != m
  }

  /** No value other than v was or will be chosen under number m, because of q. */
  ghost predicate Secured(c: Config, s: System, i: nat, v: Value, m: nat, q: set<nat>)
    requires Shape(c, s)
  {
    && Quorum(c.n, q)
    && forall a :: a in q ==> a < c.n && (Voted(c.n, s.replies, a, i, m, v) || WontVote(c, s, a, i, m))
  }

  ghost predicate Settled(c: Config, s: System, i: nat, v: Value, m: nat)
    requires Shape(c, s)
  {
    exists q :: Secured(c, s, i, v, m, q)
  }

  /** No value other than v was or will be chosen at i below number k. */
  ghost predicate SafeAt(c: Config, s: System, i: nat, v: Value, k: nat)
    requires Shape(c, s)
  {
    forall m: nat :: m < k ==> Settled(c, s, i, v, m)
  }

  ghost predicate OffersSafe(c: Config, s: System)
    requires Shape(c, s)
  {
    && (forall m :: m in s.requests && m.kind.ACCEPT? ==> SafeAt(c, s, m.instance, ValueOf(m), m.proposal))
    && (forall p :: 0 <= p < c.n && s.proposers[p].phase.Accept? ==>
          SafeAt(c, s, s.proposers[p].instance, s.proposers[p].learnt, s.proposers[p].num))
  }

  lemma WontVoteStable(c: Config, s: System, act: Action, a: nat, i: nat, m: nat)
    requires BallotInv(c, s) && Enabled(c, s, act) && a < c.n && WontVote(c, s, a, i, m)
    ensures Shape(c, Apply(c, s, act)) && WontVote(c, Apply(c, s, act), a, i, m)
  {
    ShapeStep(c, s, act);
    if act.AcceptorReceives? {
      DeliveryEffect(c, s, act.a, act.request);
      EntriesGrow(c, s, act.a, act.request, a, i);
    }
  }

  lemma SettledStable(c: Config, s: System, act: Action, i: nat, v: Value, m: nat)
    requires BallotInv(c, s) && Enabled(c, s, act) && Settled(c, s, i, v, m)
    ensures Shape(c, Apply(c, s, act)) && Settled(c, Apply(c, s, act), i, v, m)
  {
    ShapeStep(c, s, act);
    var t := Apply(c, s, act);
    var q :| Secured(c, s, i, v, m, q);
    forall a | a in q
      ensures Voted(c.n, t.replies, a, i, m, v) || WontVote(c, t, a, i, m)
    {
      if WontVote(c, s, a, i, m) {
        WontVoteStable(c, s, act, a, i, m);
      }
    }
    assert Secured(c, t, i, v, m, q);
  }

  lemma SafeAtStable(c: Config, s: System, act: Action, i: nat, v: Value, k: nat)
    requires BallotInv(c, s) && Enabled(c, s, act) && SafeAt(c, s, i, v, k)
    ensures Shape(c, Apply(c, s, act)) && SafeAt(c, Apply(c, s, act), i, v, k)
  {
    ShapeStep(c, s, act);
    forall m: nat | m < k
      ensures Settled(c, Apply(c, s, act), i, v, m)
    {
      SettledStable(c, s, act, i, v, m);
    }
  }

  /** The replies counted in one matched round come from different servers. */
  lemma PromisesFromQuorum(c: Config, s: System, p: nat, q: Proposer)
    requires BallotInv(c, s) && p < c.n && c.variant.matchProposal
    requires PromisesCounted(c.variant, q) && Majority(c.n, q.responses)
    requires forall m :: m in q.seen ==> Packet(p, m) in s.replies
    ensures Quorum(c.n, Origins(q.counted))
  {
    forall m1, m2 | m1 in q.counted && m2 in q.counted && m1.origin == m2.origin
      ensures m1 == m2
    {
      assert CountsAsPromise(c.variant, q, m1) && CountsAsPromise(c.variant, q, m2);
      assert Packet(p, m1) in s.replies && Packet(p, m2) in s.replies;
    }
    DistinctOrigins(q.counted);
    forall a | a in Origins(q.counted)
      ensures a < c.n
    {
      var m :| m in q.counted && m.origin == a;
      assert Packet(p, m) in s.replies;
    }
  }

  /** One counted promise secures every number from the reported one upwards. */
  lemma PromiseSecures(c: Config, s: System, p: nat, q: Proposer, reply: Message, i: nat, r: int, v: Value, m: nat)
    requires BallotInv(c, s) && p < c.n && Packet(p, reply) in s.replies && IsPrepareReply(reply)
    requires reply.instance == i && reply.rproposal <= r && r <= m < reply.proposal
    requires r >= 0 ==> AcceptMsg(r, i, v, Owner(c.n, r)) in s.requests
    ensures reply.origin < c.n
    ensures Voted(c.n, s.replies, reply.origin, i, m, v) || WontVote(c, s, reply.origin, i, m)
  {
    var k := Packet(p, reply);
    assert PromiseRecorded(c, s, k);
    if !WontVote(c, s, reply.origin, i, m) {
      var j :| j in s.replies && j.msg.kind.ACCEPT_ACK? && j.msg.origin == reply.origin
        && j.msg.instance == i && j.msg.proposal == m;
      assert VoteRecorded(c, s, j);
      assert m == r;
      assert AcceptMsg(r, i, ValueOf(j.msg), j.dst) in s.requests;
    }
  }

  /** Phase one of the intended protocol yields a safe value: the value of the
      highest accepted number reported by a majority, or any value if none is. */
  lemma HighestReplyIsSafe(c: Config, s: System, p: nat, q: Proposer, pick: nat)
    requires BallotInv(c, s) && OffersSafe(c, s) && p < c.n
    requires c.variant.matchProposal && c.variant.keyOnAccepted
    requires PromisesCounted(c.variant, q) && Majority(c.n, q.responses) && PickOk(c.variant, q, pick)
    requires forall m :: m in q.seen ==> Packet(p, m) in s.replies
    ensures SafeAt(c, s, q.instance, (if q.nacks == [] then q.learnt else ValueOf(q.nacks[pick])), q.num)
  {
    var i, quorum := q.instance, Origins(q.counted);
    var v := if q.nacks == [] then q.learnt else ValueOf(q.nacks[pick]);
    var r: int := if q.nacks == [] then NO_PROPOSAL else q.nacks[pick].rproposal;
    PromisesFromQuorum(c, s, p, q);
    if q.nacks != [] {
      var top := q.nacks[pick];
      assert top in q.nacks;
      assert CountsAsPromise(c.variant, q, top);
      assert PromiseRecorded(c, s, Packet(p, top));
      var offer := AcceptMsg(r, i, v, Owner(c.n, r));
      assert offer in s.requests && ValueOf(offer) == v;
      assert SafeAt(c, s, i, v, r);
    }
    forall m: nat | m < q.num
      ensures Settled(c, s, i, v, m)
    {
      if m < r {
        assert SafeAt(c, s, i, v, r);
      } else {
        forall a | a in quorum
          ensures a < c.n && (Voted(c.n, s.replies, a, i, m, v) || WontVote(c, s, a, i, m))
        {
          var reply :| reply in q.counted && reply.origin == a;
          assert CountsAsPromise(c.variant, q, reply);
          assert PromiseRecorded(c, s, Packet(p, reply));
          assert reply.rproposal <= r;
          PromiseSecures(c, s, p, q, reply, i, r, v, m);
        }
        assert Secured(c, s, i, v, m, quorum);
      }
    }
  }

  /** A proposer reaches ACCEPT only by deciding on a majority of counted replies. */
  ghost predicate Decides(c: Config, s: System, act: Action, p: nat)
    requires Shape(c, s) && p < c.n
  {
    && act.ProposerReceives? && act.p == p
    && InPhase(s, p, Proposing) && Packet(p, act.reply) in s.replies
    && var q := AbsorbPrepareReply(c.variant, c.n, s.proposers[p], act.reply);
    && q.phase.Proposing? && Majority(c.n, q.responses) && PickOk(c.variant, q, act.pick)
  }

  lemma EntersAccept(c: Config, s: System, act: Action, p: nat)
    requires Shape(c, s) && Enabled(c, s, act) && p < c.n
    ensures Shape(c, Apply(c, s, act))
    ensures var before, after := s.proposers[p], Apply(c, s, act).proposers[p];
      after.phase.Accept? ==>
        || (before.phase.Accept? && after.learnt == before.learnt && after.instance == before.instance
            && after.num == before.num)
        || (&& Decides(c, s, act, p)
            && after == Decide(c.n, AbsorbPrepareReply(c.variant, c.n, before, act.reply), act.pick))
  {
    ShapeStep(c, s, act);
    var before := s.proposers[p];
    if act.ProposerReceives? && act.p == p {
      if before.phase.Proposing? {
        AbsorbCases(c.variant, c.n, before, act.reply);
      } else {
        FinishEnds(c.n, AbsorbAcceptReply(before, act.reply), act.reply);
      }
    }
  }

  /** What a deciding proposer has counted, and what it goes on with. */
  lemma DecisionFacts(c: Config, s: System, act: Action, p: nat)
    requires Shape(c, s) && ProposersSound(c, s) && p < c.n && Decides(c, s, act, p)
    ensures var q := AbsorbPrepareReply(c.variant, c.n, s.proposers[p], act.reply);
      && PromisesCounted(c.variant, q)
      && (forall m :: m in q.seen ==> Packet(p, m) in s.replies)
      && q.instance == s.proposers[p].instance && q.num == s.proposers[p].num && q.learnt == s.proposers[p].learnt
      && var d := Decide(c.n, q, act.pick);
      && d.instance == q.instance
      && (d.phase.Accept? ==> d.num == q.num)
      && d.learnt == (if q.nacks == [] then q.learnt else ValueOf(q.nacks[act.pick]))
  {
    AbsorbCases(c.variant, c.n, s.proposers[p], act.reply);
    AbsorbCountsPromises(c.variant, c.n, s.proposers[p], act.reply);
  }

  lemma NewAcceptRequest(c: Config, s: System, act: Action, m: Message)
    requires Shape(c, s) && Enabled(c, s, act)
    requires m in Apply(c, s, act).requests && m !in s.requests && m.kind.ACCEPT?
    ensures act.SendsAccept? && InPhase(s, act.p, Accept)
    ensures var p := s.proposers[act.p]; m == AcceptMsg(p.num, p.instance, p.learnt, act.p)
  {
  }

  lemma OffersSafeStep(c: Config, s: System, act: Action)
    requires BallotInv(c, s) && OffersSafe(c, s) && Enabled(c, s, act)
    requires c.variant.matchProposal && c.variant.keyOnAccepted
    ensures Shape(c, Apply(c, s, act)) && OffersSafe(c, Apply(c, s, act))
  {
    ShapeStep(c, s, act);
    var t := Apply(c, s, act);
    forall m | m in t.requests && m.kind.ACCEPT?
      ensures SafeAt(c, t, m.instance, ValueOf(m), m.proposal)
    {
      if m !in s.requests {
        NewAcceptRequest(c, s, act, m);
      }
      SafeAtStable(c, s, act, m.instance, ValueOf(m), m.proposal);
    }
    forall p | 0 <= p < c.n && t.proposers[p].phase.Accept?
      ensures SafeAt(c, t, t.proposers[p].instance, t.proposers[p].learnt, t.proposers[p].num)
    {
      var after := t.proposers[p];
      EntersAccept(c, s, act, p);
      if !s.proposers[p].phase.Accept? {
        DecisionFacts(c, s, act, p);
        HighestReplyIsSafe(c, s, p, AbsorbPrepareReply(c.variant, c.n, s.proposers[p], act.reply), act.pick);
      }
      SafeAtStable(c, s, act, after.instance, after.learnt, after.num);
    }
  }

  /** If ACCEPT(k, v) was sent and a majority accepted w under a lower number, v = w. */
  lemma {:induction false} BallotInvariant(c: Config, s: System, m: Message, k: nat, w: Value)
    requires BallotInv(c, s) && OffersSafe(c, s)
    requires m in s.requests && m.kind.ACCEPT? && k < m.proposal && ChosenAt(c, s, m.instance, k, w)
    ensures ValueOf(m) == w
  {
    var v, i := ValueOf(m), m.instance;
    assert Settled(c, s, i, v, k);
    var q1 :| Secured(c, s, i, v, k, q1);
    var q2 :| Elects(c, s, i, k, w, q2);
    var a := QuorumsMeet(c.n, q1, q2);
    var vote := Packet(Owner(c.n, k), AcceptAckMsg(k, i, w, a));
    assert vote in s.replies && VoteRecorded(c, s, vote);
    assert !WontVote(c, s, a, i, k);
    var other := Packet(Owner(c.n, k), AcceptAckMsg(k, i, v, a));
    assert other in s.replies && VoteRecorded(c, s, other);
    assert AcceptMsg(k, i, w, Owner(c.n, k)) in s.requests && AcceptMsg(k, i, v, Owner(c.n, k)) in s.requests;
  }

  // ---------------------------------------------------------------------
  // The text as written: a reply without a client aborts the round
  // ---------------------------------------------------------------------

  /** Some proposer has offered v, or is about to. */
  ghost predicate Offered(s: System, i: nat, v: Value) {
    || (exists m :: m in s.requests && m.kind.ACCEPT? && m.instance == i && ValueOf(m) == v)
    || (exists p :: 0 <= p < |s.proposers| && s.proposers[p].phase.Accept?
          && s.proposers[p].instance == i && s.proposers[p].learnt == v)
  }

  /** Proposer p has used up a majority of the first acknowledgements of instance i. */
  ghost predicate Claim(c: Config, s: System, i: nat, p: nat, acks: set<Message>)
    requires Shape(c, s)
  {
    && p < c.n
    && acks <= s.proposers[p].seen
    && Majority(c.n, |acks|)
    && (forall m :: m in acks ==> IsFirstAck(m) && m.instance == i)
    && (s.proposers[p].phase.Proposing? ==> acks !! s.proposers[p].counted)
  }

  ghost predicate Claimed(c: Config, s: System, i: nat)
    requires Shape(c, s)
  {
    exists p, acks :: Claim(c, s, i, p, acks)
  }

  ghost predicate OneOffer(c: Config, s: System)
    requires Shape(c, s)
  {
    && (forall i, v, w :: Offered(s, i, v) && Offered(s, i, w) ==> v == w)
    && (forall i, v :: Offered(s, i, v) ==> Claimed(c, s, i))
  }

  /** No message is forgotten, and whatever is counted anew had not been seen before. */
  predicate CountsFresh(before: Proposer, after: Proposer) {
    && before.seen <= after.seen
    && (after.phase.Proposing? ==>
          forall m :: m in after.counted ==> m !in before.seen || (before.phase.Proposing? && m in before.counted))
  }

  lemma PrepareReplyCountsFresh(v: Variant, n: nat, p: Proposer, m: Message, pick: nat)
    requires p.phase.Proposing?
    ensures CountsFresh(p, OnPrepareReply(v, n, p, m, pick))
  {
    AbsorbCases(v, n, p, m);
  }

  lemma AcceptReplyCountsFresh(n: nat, p: Proposer, m: Message)
    requires p.phase.Accepting?
    ensures CountsFresh(p, OnAcceptReply(n, p, m))
  {
    FinishEnds(n, AbsorbAcceptReply(p, m), m);
  }

  lemma CountsUnseen(c: Config, s: System, act: Action, p: nat)
    requires Shape(c, s) && Enabled(c, s, act) && p < c.n
    ensures |Apply(c, s, act).proposers| == c.n
    ensures CountsFresh(s.proposers[p], Apply(c, s, act).proposers[p])
  {
    var before := s.proposers[p];
    if act.ProposerReceives? && act.p == p {
      if before.phase.Proposing? {
        PrepareReplyCountsFresh(c.variant, c.n, before, act.reply, act.pick);
      } else {
        AcceptReplyCountsFresh(c.n, before, act.reply);
      }
    }
  }

  lemma ClaimStable(c: Config, s: System, act: Action, i: nat)
    requires Shape(c, s) && Enabled(c, s, act) && Claimed(c, s, i)
    ensures Shape(c, Apply(c, s, act)) && Claimed(c, Apply(c, s, act), i)
  {
    ShapeStep(c, s, act);
    var p: nat, acks :| Claim(c, s, i, p, acks);
    CountsUnseen(c, s, act, p);
    assert Claim(c, Apply(c, s, act), i, p, acks);
  }

  /** Two majorities of first acknowledgements of one instance share a message, and
      went to the same proposer. */
  lemma FirstAcksMeet(c: Config, s: System, i: nat, p1: nat, acks1: set<Message>, p2: nat, acks2: set<Message>)
    requires BallotInv(c, s)
    requires Majority(c.n, |acks1|) && Majority(c.n, |acks2|)
    requires forall m :: m in acks1 ==> IsFirstAck(m) && m.instance == i && Packet(p1, m) in s.replies
    requires forall m :: m in acks2 ==> IsFirstAck(m) && m.instance == i && Packet(p2, m) in s.replies
    ensures p1 == p2 && acks1 * acks2 != {}
  {
    DistinctOrigins(acks1);
    DistinctOrigins(acks2);
    var a := QuorumsMeet(c.n, Origins(acks1), Origins(acks2));
    var m1 :| m1 in acks1 && m1.origin == a;
    var m2 :| m2 in acks2 && m2.origin == a;
    assert Packet(p1, m1) == Packet(p2, m2);
    assert m1 in acks1 * acks2;
  }

  /** A round that ends without a NACK is the first to offer anything at its instance. */
  lemma {:induction false} AckRoundComesFirst(c: Config, s: System, act: Action, p: nat)
    requires BallotInv(c, s) && c.variant.abortOnNone && p < c.n && Decides(c, s, act, p)
    requires AbsorbPrepareReply(c.variant, c.n, s.proposers[p], act.reply).nacks == []
    ensures !Claimed(c, s, s.proposers[p].instance)
  {
    var before := s.proposers[p];
    var q, i := AbsorbPrepareReply(c.variant, c.n, before, act.reply), before.instance;
    DecisionFacts(c, s, act, p);
    AbsorbCases(c.variant, c.n, before, act.reply);
    forall m | m in q.counted
      ensures IsFirstAck(m) && m.instance == i && Packet(p, m) in s.replies
    {
      assert CountsAsPromise(c.variant, q, m);
    }
    if Claimed(c, s, i) {
      var p0: nat, acks :| Claim(c, s, i, p0, acks);
      assert p0 == p ==> acks !! q.counted;
      FirstAcksMeet(c, s, i, p0, acks, p, q.counted);
    }
  }

  /** The step in which p decides to offer v at instance i. */
  ghost predicate DecidesOn(c: Config, s: System, act: Action, p: nat, i: nat, v: Value)
    requires Shape(c, s) && Enabled(c, s, act)
  {
    && |Apply(c, s, act).proposers| == c.n
    && p < c.n && Decides(c, s, act, p)
    && var before, after := s.proposers[p], Apply(c, s, act).proposers[p];
    && after.phase.Accept? && before.instance == i && after.learnt == v
    && after == Decide(c.n, AbsorbPrepareReply(c.variant, c.n, before, act.reply), act.pick)
  }

  lemma RequestOfferedBefore(c: Config, s: System, act: Action, m: Message)
    requires Shape(c, s) && Enabled(c, s, act) && m in Apply(c, s, act).requests && m.kind.ACCEPT?
    ensures Offered(s, m.instance, ValueOf(m))
  {
    if m !in s.requests {
      NewAcceptRequest(c, s, act, m);
    }
  }

  lemma AcceptOfferedBefore(c: Config, s: System, act: Action, p: nat)
    requires Shape(c, s) && Enabled(c, s, act) && p < |Apply(c, s, act).proposers|
    requires Apply(c, s, act).proposers[p].phase.Accept?
    ensures var q := Apply(c, s, act).proposers[p];
      || Offered(s, q.instance, q.learnt)
      || (act.ProposerReceives? && DecidesOn(c, s, act, act.p, q.instance, q.learnt))
  {
    ShapeStep(c, s, act);
    EntersAccept(c, s, act, p);
  }

  lemma OfferedStep(c: Config, s: System, act: Action, i: nat, v: Value)
    requires Shape(c, s) && Enabled(c, s, act) && Offered(Apply(c, s, act), i, v)
    ensures Offered(s, i, v) || (act.ProposerReceives? && DecidesOn(c, s, act, act.p, i, v))
  {
    ShapeStep(c, s, act);
    var t := Apply(c, s, act);
    if m :| m in t.requests && m.kind.ACCEPT? && m.instance == i && ValueOf(m) == v {
      RequestOfferedBefore(c, s, act, m);
    } else {
      var p: nat :| p < |t.proposers| && t.proposers[p].phase.Accept?
        && t.proposers[p].instance == i && t.proposers[p].learnt == v;
      AcceptOfferedBefore(c, s, act, p);
    }
  }

  /** What a decision offers: the value of a NACK, which was offered before, or a
      value at an instance nobody has claimed. */
  lemma DecisionOffer(c: Config, s: System, act: Action, p: nat)
    requires BallotInv(c, s) && OneOffer(c, s) && c.variant.abortOnNone && Enabled(c, s, act)
    requires p < c.n && Decides(c, s, act, p)
    requires Apply(c, s, act).proposers[p]
      == Decide(c.n, AbsorbPrepareReply(c.variant, c.n, s.proposers[p], act.reply), act.pick)
    requires Apply(c, s, act).proposers[p].phase.Accept?
    ensures var i, v := s.proposers[p].instance, Apply(c, s, act).proposers[p].learnt;
      || Offered(s, i, v)
      || (!Claimed(c, s, i) && Shape(c, Apply(c, s, act)) && Claimed(c, Apply(c, s, act), i))
  {
    ShapeStep(c, s, act);
    DecisionFacts(c, s, act, p);
    var q, i := AbsorbPrepareReply(c.variant, c.n, s.proposers[p], act.reply), s.proposers[p].instance;
    if q.nacks == [] {
      AckRoundComesFirst(c, s, act, p);
      forall m | m in q.counted
        ensures IsFirstAck(m) && m.instance == i
      {
        assert CountsAsPromise(c.variant, q, m);
      }
      assert Claim(c, Apply(c, s, act), i, p, q.counted);
    } else {
      var top := q.nacks[act.pick];
      assert top in q.nacks && CountsAsPromise(c.variant, q, top);
      assert PromiseRecorded(c, s, Packet(p, top));
      var offer := AcceptMsg(top.rproposal, i, ValueOf(top), Owner(c.n, top.rproposal));
      assert offer in s.requests && ValueOf(offer) == ValueOf(top);
    }
  }

  lemma OneOfferStep(c: Config, s: System, act: Action)
    requires BallotInv(c, s) && OneOffer(c, s) && c.variant.abortOnNone && Enabled(c, s, act)
    ensures Shape(c, Apply(c, s, act)) && OneOffer(c, Apply(c, s, act))
  {
    ShapeStep(c, s, act);
    var t := Apply(c, s, act);
    forall i, v | Offered(t, i, v)
      ensures Claimed(c, t, i)
      ensures Offered(s, i, v) || !Claimed(c, s, i)
      ensures !Offered(s, i, v) ==>
        act.ProposerReceives? && act.p < c.n && i == s.proposers[act.p].instance && v == t.proposers[act.p].learnt
    {
      OfferedStep(c, s, act, i, v);
      if Offered(s, i, v) {
        ClaimStable(c, s, act, i);
      } else {
        DecisionOffer(c, s, act, act.p);
      }
    }
  }

  // ---------------------------------------------------------------------
  // Agreement
  // ---------------------------------------------------------------------

  /** The variants whose runs always agree: a reply without a client aborts the
      round, or replies are matched and ranked by their accepted number. */
  predicate Safe(v: Variant) {
    v.abortOnNone || (v.matchProposal && v.keyOnAccepted)
  }

  ghost predicate ConsensusInv(c: Config, s: System) {
    && BallotInv(c, s)
    && (c.variant.abortOnNone ==> OneOffer(c, s))
    && (c.variant.matchProposal && c.variant.keyOnAccepted ==> OffersSafe(c, s))
  }

  lemma ConsensusStep(c: Config, s: System, act: Action)
    requires ConsensusInv(c, s) && Enabled(c, s, act)
    ensures ConsensusInv(c, Apply(c, s, act))
  {
    BallotStep(c, s, act);
    if c.variant.abortOnNone {
      OneOfferStep(c, s, act);
    }
    if c.variant.matchProposal && c.variant.keyOnAccepted {
      OffersSafeStep(c, s, act);
    }
  }

  lemma {:induction false} ConsensusInvAlways(c: Config, r: Run)
    requires c.n > 0 && Valid(c, r)
    ensures ConsensusInv(c, Final(c, r))
  {
    match r
    case Start => BallotInit(c);
    case Then(before, act) =>
      ConsensusInvAlways(c, before);
      ConsensusStep(c, Final(c, before), act);
  }

  /** A value accepted by a majority was offered by the owner of its number. */
  lemma ChosenWasOffered(c: Config, s: System, i: nat, k: nat, v: Value)
    requires BallotInv(c, s) && ChosenAt(c, s, i, k, v)
    ensures AcceptMsg(k, i, v, Owner(c.n, k)) in s.requests
    ensures Offered(s, i, v)
  {
    var q :| Elects(c, s, i, k, v, q);
    var a := QuorumsMeet(c.n, q, q);
    var vote := Packet(Owner(c.n, k), AcceptAckMsg(k, i, v, a));
    assert vote in s.replies && VoteRecorded(c, s, vote);
    var m := AcceptMsg(k, i, v, Owner(c.n, k));
    assert m in s.requests && ValueOf(m) == v;
  }

  lemma ChosenInOrder(c: Config, s: System, i: nat, k: nat, v: Value, l: nat, w: Value)
    requires BallotInv(c, s) && OffersSafe(c, s) && k <= l
    requires ChosenAt(c, s, i, k, v) && ChosenAt(c, s, i, l, w)
    ensures v == w
  {
    ChosenWasOffered(c, s, i, l, w);
    var m := AcceptMsg(l, i, w, Owner(c.n, l));
    if k < l {
      BallotInvariant(c, s, m, k, v);
    } else {
      ChosenWasOffered(c, s, i, k, v);
      assert AcceptMsg(k, i, v, Owner(c.n, k)) == m;
    }
  }

  /** Agreement in every state that keeps the invariant. */
  lemma ChosenIsUnique(c: Config, s: System, i: nat, v: Value, w: Value)
    requires Safe(c.variant) && ConsensusInv(c, s) && Chosen(c, s, i, v) && Chosen(c, s, i, w)
    ensures v == w
  {
    var k: nat :| ChosenAt(c, s, i, k, v);
    var l: nat :| ChosenAt(c, s, i, l, w);
    if c.variant.abortOnNone {
      ChosenWasOffered(c, s, i, k, v);
      ChosenWasOffered(c, s, i, l, w);
    } else if k <= l {
      ChosenInOrder(c, s, i, k, v, l, w);
    } else {
      ChosenInOrder(c, s, i, l, w, k, v);
    }
  }

  /** Agreement over whole runs. */
  lemma Agreement(c: Config, r: Run, i: nat, v: Value, w: Value)
    requires c.n > 0 && Safe(c.variant) && Valid(c, r)
    requires Chosen(c, Final(c, r), i, v) && Chosen(c, Final(c, r), i, w)
    ensures v == w
  {
    ConsensusInvAlways(c, r);
    ChosenIsUnique(c, Final(c, r), i, v, w);
  }

  /** The ballot invariant over whole runs: once a majority has accepted w under some
      number, no other value is offered under a higher one. */
  lemma BallotInvariantAlways(c: Config, r: Run, m: Message, k: nat, w: Value)
    requires c.n > 0 && Safe(c.variant) && Valid(c, r)
    requires m in Final(c, r).requests && m.kind.ACCEPT? && k < m.proposal
    requires ChosenAt(c, Final(c, r), m.instance, k, w)
    ensures ValueOf(m) == w
  {
    ConsensusInvAlways(c, r);
    var s := Final(c, r);
    if c.variant.abortOnNone {
      ChosenWasOffered(c, s, m.instance, k, w);
      assert Offered(s, m.instance, ValueOf(m));
    } else {
      BallotInvariant(c, s, m, k, w);
    }
  }

  /** With the assertion in place much more holds than agreement: an instance only
      ever sees one value in accept requests. */
  lemma OneValueOfferedPerInstance(c: Config, r: Run, m1: Message, m2: Message)
    requires c.n > 0 && c.variant.abortOnNone && Valid(c, r)
    requires m1 in Final(c, r).requests && m1.kind.ACCEPT? && m2 in Final(c, r).requests && m2.kind.ACCEPT?
    requires m1.instance == m2.instance
    ensures ValueOf(m1) == ValueOf(m2)
  {
    ConsensusInvAlways(c, r);
    assert Offered(Final(c, r), m1.instance, ValueOf(m1)) && Offered(Final(c, r), m1.instance, ValueOf(m2));
  }

  /** One proposal number, one value, one instance, one owner: the numbers of server
      p are p plus multiples of n, and a number is never used for two values. */
  lemma OneNumberOneValue(c: Config, r: Run, m1: Message, m2: Message)
    requires c.n > 0 && Valid(c, r)
    requires m1 in Final(c, r).requests && m2 in Final(c, r).requests && m1.proposal == m2.proposal
    ensures m1.origin == m2.origin == Owner(c.n, m1.proposal)
    ensures m1.instance == m2.instance
    ensures m1.kind == m2.kind ==> m1 == m2
  {
    BallotInvAlways(c, r);
  }

  /** Whatever branch led back to READY, the next round of a server goes out under a
      number of its own that is higher than all it used before. */
  lemma EachRoundIsHigher(c: Config, r: Run, p: nat, m: Message)
    requires c.n > 0 && Valid(c, r) && InPhase(Final(c, r), p, Ready)
    requires m in Final(c, r).requests && m.origin == p
    ensures m.proposal < Final(c, r).proposers[p].num
    ensures p == Owner(c.n, Final(c, r).proposers[p].num)
  {
    BallotInvAlways(c, r);
  }
}
