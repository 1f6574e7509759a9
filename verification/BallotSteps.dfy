/** Every action keeps the ballot invariant, so it holds in every run. */
module BallotSteps {
  import opened Options
  import opened Messages
  import opened Acceptors
  import opened Proposers
  import opened Cluster
  import opened Ballots

  lemma BallotInit(c: Config)
    requires c.n > 0
    ensures BallotInv(c, Init(c))
  {
  }

  /** What any action can do to one proposer. */
  ghost predicate Advances(n: nat, p: Proposer, q: Proposer) {
    && q.id == p.id
    && p.num <= q.num && p.instance <= q.instance
    && p.seen <= q.seen
    && (q.num == p.num || q.num == p.num + n || q.num == p.num + n + n)
    && (q.num == p.num ==>
          && q.instance == p.instance
          && (p.phase.Accepting? ==> q.phase.Accepting?)
          && (p.phase.Accept? ==> q.phase.Accept? || q.phase.Accepting?)
          && (p.phase.Proposing? ==> q.phase.Proposing? || q.phase.Accept?))
  }

  lemma PrepareReplyAdvances(v: Variant, n: nat, p: Proposer, m: Message, pick: nat)
    requires p.phase.Proposing? && n > 0
    ensures Advances(n, p, OnPrepareReply(v, n, p, m, pick))
  {
    var q := AbsorbPrepareReply(v, n, p, m);
    assert Advances(n, p, q);
    assert q.phase.Proposing? ==> q.num == p.num && Advances(n, q, Decide(n, q, pick));
  }

  lemma AcceptReplyAdvances(n: nat, p: Proposer, m: Message)
    requires p.phase.Accepting? && n > 0
    ensures Advances(n, p, OnAcceptReply(n, p, m))
  {
    var q := AbsorbAcceptReply(p, m);
    assert Advances(n, p, q) && q.num == p.num;
    var f := Finish(n, q, m);
    assert f.num == q.num + n && f.instance >= q.instance && f.seen == q.seen && f.id == q.id;
  }

  lemma ProposersAdvance(c: Config, s: System, act: Action, p: nat)
    requires Shape(c, s) && Enabled(c, s, act) && p < c.n
    ensures |Apply(c, s, act).proposers| == c.n
    ensures Advances(c.n, s.proposers[p], Apply(c, s, act).proposers[p])
  {
    var q := s.proposers[p];
    match act
    case ClientSubmits(_, _, _) =>
    case SendsPrepare(_) =>
    case SendsAccept(_) =>
    case TimesOut(_) =>
    case AcceptorReceives(_, _) =>
    case ProposerReceives(r, m, pick) =>
      if r == p && q.phase.Proposing? {
        PrepareReplyAdvances(c.variant, c.n, q, m, pick);
      } else if r == p {
        AcceptReplyAdvances(c.n, q, m);
      }
  }

  /** Acceptors keep their ids, and nothing that was sent is lost. */
  lemma MessagesStay(c: Config, s: System, act: Action)
    requires Shape(c, s) && Enabled(c, s, act)
    ensures |Apply(c, s, act).acceptors| == c.n
    ensures forall a :: 0 <= a < c.n ==> Apply(c, s, act).acceptors[a].id == a
    ensures s.requests <= Apply(c, s, act).requests && s.replies <= Apply(c, s, act).replies
  {
  }

  lemma OwnerStays(n: nat, p: Proposer, q: Proposer)
    requires n > 0 && Advances(n, p, q)
    ensures Owner(n, q.num) == Owner(n, p.num)
  {
    var once := p.num + n;
    assert Owner(n, once) == Owner(n, p.num);
    assert Owner(n, once + n) == Owner(n, once);
  }

  /** A proposer keeps the remainder of its number. */
  lemma OwnNumbersStay(c: Config, s: System, act: Action, p: nat)
    requires Shape(c, s) && Enabled(c, s, act) && p < c.n
    ensures |Apply(c, s, act).proposers| == c.n
    ensures Advances(c.n, s.proposers[p], Apply(c, s, act).proposers[p])
    ensures Owner(c.n, Apply(c, s, act).proposers[p].num) == p
  {
    ProposersAdvance(c, s, act, p);
    OwnerStays(c.n, s.proposers[p], Apply(c, s, act).proposers[p]);
  }

  lemma ShapeStep(c: Config, s: System, act: Action)
    requires Shape(c, s) && Enabled(c, s, act)
    ensures Shape(c, Apply(c, s, act))
    ensures forall p :: 0 <= p < c.n ==> Advances(c.n, s.proposers[p], Apply(c, s, act).proposers[p])
    ensures s.requests <= Apply(c, s, act).requests && s.replies <= Apply(c, s, act).replies
  {
    MessagesStay(c, s, act);
    OwnNumbersStay(c, s, act, 0);
    forall p | 0 <= p < c.n
      ensures Advances(c.n, s.proposers[p], Apply(c, s, act).proposers[p])
      ensures Owner(c.n, Apply(c, s, act).proposers[p].num) == p
    {
      OwnNumbersStay(c, s, act, p);
    }
  }

  lemma RequestsOwnedStep(c: Config, s: System, act: Action)
    requires Shape(c, s) && RequestsOwned(c, s) && Enabled(c, s, act)
    ensures Shape(c, Apply(c, s, act)) && RequestsOwned(c, Apply(c, s, act))
  {
    ShapeStep(c, s, act);
    var t := Apply(c, s, act);
    forall m | m in t.requests
      ensures m.origin < c.n && Owner(c.n, m.proposal) == m.origin && WithinRound(t.proposers[m.origin], m)
    {
      if m in s.requests {
        assert Advances(c.n, s.proposers[m.origin], t.proposers[m.origin]);
      }
    }
  }

  lemma OneRequestStep(c: Config, s: System, act: Action)
    requires Shape(c, s) && RequestsOwned(c, s) && OneRequestPerNumber(s.requests) && Enabled(c, s, act)
    ensures OneRequestPerNumber(Apply(c, s, act).requests)
  {
    var t := Apply(c, s, act);
    forall m1, m2 | m1 in t.requests && m2 in t.requests && m1.proposal == m2.proposal
      ensures m1.instance == m2.instance && (m1.kind == m2.kind ==> m1 == m2)
    {
      assert m1 in s.requests ==> WithinRound(s.proposers[m1.origin], m1);
      assert m2 in s.requests ==> WithinRound(s.proposers[m2.origin], m2);
    }
  }

  lemma NewReplyOwned(c: Config, s: System, act: Action, k: Packet)
    requires Shape(c, s) && RequestsOwned(c, s) && Enabled(c, s, act)
    requires k in Apply(c, s, act).replies && k !in s.replies
    ensures k.dst < c.n && k.msg.origin < c.n && !IsRequest(k.msg)
    ensures Owner(c.n, k.msg.proposal) == k.dst && k.msg.instance <= s.proposers[k.dst].instance
  {
    assert WithinRound(s.proposers[act.request.origin], act.request);
  }

  lemma RepliesOwnedStep(c: Config, s: System, act: Action)
    requires Shape(c, s) && RequestsOwned(c, s) && RepliesOwned(c, s) && Enabled(c, s, act)
    ensures Shape(c, Apply(c, s, act)) && RepliesOwned(c, Apply(c, s, act))
  {
    ShapeStep(c, s, act);
    var t := Apply(c, s, act);
    forall k | k in t.replies
      ensures && k.dst < c.n && k.msg.origin < c.n
              && !IsRequest(k.msg)
              && Owner(c.n, k.msg.proposal) == k.dst
              && k.msg.instance <= t.proposers[k.dst].instance
    {
      if k !in s.replies {
        NewReplyOwned(c, s, act, k);
      }
      assert Advances(c.n, s.proposers[k.dst], t.proposers[k.dst]);
    }
  }

  /** The parts of the invariant that speak of acceptors and messages only. */
  ghost predicate AcceptorInv(c: Config, s: System) {
    && Shape(c, s)
    && VotesRecorded(c, s)
    && EntriesBacked(c, s)
    && PromisesRecorded(c, s)
    && PromisesKept(s.replies)
    && OnePromisePerNumber(s.replies)
    && OneFirstAckPerInstance(s.replies)
  }

  /** Steps of proposers only add requests. */
  lemma AcceptorInvFrame(c: Config, s: System, t: System)
    requires AcceptorInv(c, s) && Shape(c, t)
    requires t.acceptors == s.acceptors && t.replies == s.replies && s.requests <= t.requests
    ensures AcceptorInv(c, t)
  {
    forall k | k in t.replies && k.msg.kind.ACCEPT_ACK?
      ensures VoteRecorded(c, t, k)
    {
      assert VoteRecorded(c, s, k);
    }
    forall a, i | 0 <= a < c.n && i in t.acceptors[a].history
      ensures EntryBacked(c, t, a, i)
    {
      assert EntryBacked(c, s, a, i);
    }
    forall k | k in t.replies && IsPrepareReply(k.msg)
      ensures PromiseRecorded(c, t, k)
    {
      assert PromiseRecorded(c, s, k);
    }
  }

  /** How a delivery that is answered changes the entry for m.instance. */
  ghost predicate Answers(h: History, g: History, m: Message, a: nat, r: Message) {
    && m.instance in g
    && g[m.instance].prep == m.proposal
    && (m.instance in h ==> h[m.instance].prep <= m.proposal)
    && (forall i :: i != m.instance ==> (i in g <==> i in h) && (i in h ==> g[i] == h[i]))
    && (m.kind.ACCEPT? ==>
          && r == AcceptAckMsg(m.proposal, m.instance, ValueOf(m), a)
          && g[m.instance] == Entry(m.proposal, m.proposal, m.payload, m.client))
    && (m.kind.PREPARE? ==>
          && IsPrepareReply(r) && r.origin == a && r.instance == m.instance && r.proposal == m.proposal
          && r.rproposal == g[m.instance].accp
          && (r.kind.PREPARE_NACK? <==> r.rproposal != NO_PROPOSAL)
          && (if m.instance in h
              then && h[m.instance].prep < m.proposal
                   && ValueOf(r) == Accepted(h[m.instance])
                   && g[m.instance] == h[m.instance].(prep := m.proposal)
              else g[m.instance] == Entry(m.proposal, NO_PROPOSAL, NoValue, None)))
  }

  lemma DeliveryEffect(c: Config, s: System, a: nat, m: Message)
    requires Shape(c, s) && Enabled(c, s, AcceptorReceives(a, m))
    ensures var t := Apply(c, s, AcceptorReceives(a, m));
      var h, g, r := s.acceptors[a].history, t.acceptors[a].history, Receive(s.acceptors[a], m).1;
      && t.requests == s.requests && t.proposers == s.proposers
      && |t.acceptors| == |s.acceptors|
      && (forall b :: 0 <= b < c.n && b != a ==> t.acceptors[b] == s.acceptors[b])
      && (r.None? ==> t.replies == s.replies && g == h)
      && (r.Some? ==> t.replies == s.replies + {Packet(m.origin, r.value)} && Answers(h, g, m, a, r.value))
  {
  }

  /** An entry's numbers never go down. */
  lemma EntriesGrow(c: Config, s: System, a: nat, m: Message, b: nat, i: nat)
    requires Shape(c, s) && EntriesBacked(c, s) && Enabled(c, s, AcceptorReceives(a, m))
    requires b < c.n && i in s.acceptors[b].history
    ensures var t := Apply(c, s, AcceptorReceives(a, m));
      && |t.acceptors| == c.n
      && i in t.acceptors[b].history
      && s.acceptors[b].history[i].prep <= t.acceptors[b].history[i].prep
      && s.acceptors[b].history[i].accp <= t.acceptors[b].history[i].accp
  {
    DeliveryEffect(c, s, a, m);
    assert EntryBacked(c, s, b, i);
  }

  lemma VotesRecordedStep(c: Config, s: System, a: nat, m: Message)
    requires AcceptorInv(c, s) && RequestsOwned(c, s) && Enabled(c, s, AcceptorReceives(a, m))
    ensures var t := Apply(c, s, AcceptorReceives(a, m)); Shape(c, t) && VotesRecorded(c, t)
  {
    DeliveryEffect(c, s, a, m);
    ShapeStep(c, s, AcceptorReceives(a, m));
    var t := Apply(c, s, AcceptorReceives(a, m));
    forall k | k in t.replies && k.msg.kind.ACCEPT_ACK?
      ensures VoteRecorded(c, t, k)
    {
      if k in s.replies {
        assert VoteRecorded(c, s, k);
        EntriesGrow(c, s, a, m, k.msg.origin, k.msg.instance);
      } else {
        assert m.kind.ACCEPT? && m == AcceptMsg(m.proposal, m.instance, ValueOf(m), m.origin);
      }
    }
  }

  lemma EntriesBackedStep(c: Config, s: System, a: nat, m: Message)
    requires AcceptorInv(c, s) && RequestsOwned(c, s) && Enabled(c, s, AcceptorReceives(a, m))
    ensures var t := Apply(c, s, AcceptorReceives(a, m)); Shape(c, t) && EntriesBacked(c, t)
  {
    DeliveryEffect(c, s, a, m);
    ShapeStep(c, s, AcceptorReceives(a, m));
    var t := Apply(c, s, AcceptorReceives(a, m));
    forall b, i | 0 <= b < c.n && i in t.acceptors[b].history
      ensures EntryBacked(c, t, b, i)
    {
      if i in s.acceptors[b].history {
        assert EntryBacked(c, s, b, i);
      }
    }
  }

  lemma PromisesRecordedStep(c: Config, s: System, a: nat, m: Message)
    requires AcceptorInv(c, s) && RequestsOwned(c, s) && Enabled(c, s, AcceptorReceives(a, m))
    ensures var t := Apply(c, s, AcceptorReceives(a, m)); Shape(c, t) && PromisesRecorded(c, t)
  {
    DeliveryEffect(c, s, a, m);
    ShapeStep(c, s, AcceptorReceives(a, m));
    var t := Apply(c, s, AcceptorReceives(a, m));
    forall k | k in t.replies && IsPrepareReply(k.msg)
      ensures PromiseRecorded(c, t, k)
    {
      if k in s.replies {
        assert PromiseRecorded(c, s, k);
        EntriesGrow(c, s, a, m, k.msg.origin, k.msg.instance);
      } else if m.instance in s.acceptors[a].history {
        var e := s.acceptors[a].history[m.instance];
        assert EntryBacked(c, s, a, m.instance);
        if e.accp != NO_PROPOSAL {
          var vote := Packet(Owner(c.n, e.accp), AcceptAckMsg(e.accp, m.instance, Accepted(e), a));
          assert VoteRecorded(c, s, vote);
        }
      }
    }
  }

  lemma PromisesKeptStep(c: Config, s: System, a: nat, m: Message)
    requires AcceptorInv(c, s) && Enabled(c, s, AcceptorReceives(a, m))
    ensures PromisesKept(Apply(c, s, AcceptorReceives(a, m)).replies)
  {
    DeliveryEffect(c, s, a, m);
    var t := Apply(c, s, AcceptorReceives(a, m));
    forall k, j |
      && k in t.replies && IsPrepareReply(k.msg) && j in t.replies && j.msg.kind.ACCEPT_ACK?
      && j.msg.origin == k.msg.origin && j.msg.instance == k.msg.instance && j.msg.proposal < k.msg.proposal
      ensures j.msg.proposal <= k.msg.rproposal
    {
      if k in s.replies {
        assert PromiseRecorded(c, s, k);
      } else if j in s.replies {
        assert VoteRecorded(c, s, j);
      }
    }
  }

  lemma OnePromiseStep(c: Config, s: System, a: nat, m: Message)
    requires AcceptorInv(c, s) && Enabled(c, s, AcceptorReceives(a, m))
    ensures OnePromisePerNumber(Apply(c, s, AcceptorReceives(a, m)).replies)
    ensures OneFirstAckPerInstance(Apply(c, s, AcceptorReceives(a, m)).replies)
  {
    DeliveryEffect(c, s, a, m);
    var t := Apply(c, s, AcceptorReceives(a, m));
    forall k | k in s.replies && IsPrepareReply(k.msg)
      ensures PromiseRecorded(c, s, k)
    {
    }
    if m.kind.PREPARE? && m.instance in s.acceptors[a].history {
      assert EntryBacked(c, s, a, m.instance);
    }
  }

  lemma AcceptorInvStep(c: Config, s: System, act: Action)
    requires AcceptorInv(c, s) && RequestsOwned(c, s) && Enabled(c, s, act)
    ensures AcceptorInv(c, Apply(c, s, act))
  {
    ShapeStep(c, s, act);
    if act.AcceptorReceives? {
      VotesRecordedStep(c, s, act.a, act.request);
      EntriesBackedStep(c, s, act.a, act.request);
      PromisesRecordedStep(c, s, act.a, act.request);
      PromisesKeptStep(c, s, act.a, act.request);
      OnePromiseStep(c, s, act.a, act.request);
    } else {
      AcceptorInvFrame(c, s, Apply(c, s, act));
    }
  }

  /** The possible outcomes of one message in the PROPOSING loop. */
  lemma AbsorbCases(v: Variant, n: nat, p: Proposer, m: Message)
    ensures var q, r := AbsorbPrepareReply(v, n, p, m), p.(seen := p.seen + {m});
      || q == AbortPrepare(n, p) || q == p || q == r || q == r.(halted := true)
      || (&& m !in p.seen && CountsAsPromise(v, p, m)
          && q == Count(r, m).(nacks := if m.kind.PREPARE_NACK? then p.nacks + [m] else p.nacks))
  {
  }

  lemma CountKeepsPromises(v: Variant, p: Proposer, q: Proposer, m: Message)
    requires PromisesCounted(v, p) && m !in p.seen && CountsAsPromise(v, p, m)
    requires q.instance == p.instance && q.num == p.num
    requires q.responses == p.responses + 1 && q.counted == p.counted + {m} && q.seen == p.seen + {m}
    requires q.nacks == if m.kind.PREPARE_NACK? then p.nacks + [m] else p.nacks
    ensures PromisesCounted(v, q)
  {
    assert m !in p.counted;
    forall x | x in q.counted
      ensures CountsAsPromise(v, q, x) && (x.kind.PREPARE_NACK? ==> x in q.nacks)
    {
      assert x in p.counted ==> CountsAsPromise(v, p, x);
    }
  }

  lemma AbsorbCountsPromises(v: Variant, n: nat, p: Proposer, m: Message)
    requires p.phase.Proposing? && PromisesCounted(v, p)
    ensures var q := AbsorbPrepareReply(v, n, p, m);
      && q.seen <= p.seen + {m}
      && (q.phase.Ready? || (q.phase.Proposing? && PromisesCounted(v, q)))
  {
    AbsorbCases(v, n, p, m);
    var q := AbsorbPrepareReply(v, n, p, m);
    if q.counted != p.counted {
      CountKeepsPromises(v, p, q, m);
    }
  }

  lemma AbsorbCountsVotes(p: Proposer, m: Message)
    requires p.phase.Accepting? && !p.halted && VotesCounted(p)
    ensures var q := AbsorbAcceptReply(p, m);
      && q == p.(seen := q.seen, halted := q.halted, counted := q.counted, responses := q.responses)
      && q.seen <= p.seen + {m} && VotesCounted(q)
      && (q.counted == p.counted || q.counted == p.counted + {m})
      && (q.halted ==> IsRequest(m) || m.instance > p.instance)
  {
    var q := AbsorbAcceptReply(p, m);
    if q.counted != p.counted {
      assert m !in p.counted && q.counted == p.counted + {m};
    }
  }

  lemma PrepareReplyCounted(c: Config, p: Proposer, m: Message, pick: nat, requests: set<Message>)
    requires p.phase.Proposing? && CountSound(c, p, requests)
    ensures var q := OnPrepareReply(c.variant, c.n, p, m, pick);
      q.seen <= p.seen + {m} && (q.halted || CountSound(c, q, requests))
  {
    AbsorbCountsPromises(c.variant, c.n, p, m);
    var q := AbsorbPrepareReply(c.variant, c.n, p, m);
    var d := Decide(c.n, q, pick);
    assert d.seen == q.seen && (d.phase.Accept? || d.phase.Ready?);
  }

  lemma FinishEnds(n: nat, p: Proposer, m: Message)
    ensures var f := Finish(n, p, m); (f.phase.Idle? || f.phase.Ready?) && f.seen == p.seen
  {
  }

  lemma AcceptReplyCounted(c: Config, p: Proposer, m: Message, requests: set<Message>)
    requires p.phase.Accepting? && !p.halted && CountSound(c, p, requests)
    ensures var q := OnAcceptReply(c.n, p, m);
      q.seen <= p.seen + {m} && (q.halted || CountSound(c, q, requests))
  {
    AbsorbCountsVotes(p, m);
    FinishEnds(c.n, AbsorbAcceptReply(p, m), m);
  }

  /** Steps of p other than a delivery start a count or leave it alone. */
  lemma QuietStepCounted(c: Config, s: System, act: Action, p: nat)
    requires Shape(c, s) && ProposersSound(c, s) && Enabled(c, s, act) && p < c.n
    requires !(act.ProposerReceives? && act.p == p)
    ensures var t := Apply(c, s, act);
      && |t.proposers| == c.n
      && t.proposers[p].seen == s.proposers[p].seen
      && (t.proposers[p].halted || CountSound(c, t.proposers[p], t.requests))
  {
  }

  lemma ProposersSoundStep(c: Config, s: System, act: Action)
    requires Shape(c, s) && ProposersSound(c, s) && Enabled(c, s, act)
    ensures var t := Apply(c, s, act); Shape(c, t) && ProposersSound(c, t)
  {
    ShapeStep(c, s, act);
    var t := Apply(c, s, act);
    forall p | 0 <= p < c.n
      ensures forall m :: m in t.proposers[p].seen ==> Packet(p, m) in t.replies
      ensures !t.proposers[p].halted ==> CountSound(c, t.proposers[p], t.requests)
    {
      if act.ProposerReceives? && act.p == p {
        if s.proposers[p].phase.Proposing? {
          PrepareReplyCounted(c, s.proposers[p], act.reply, act.pick, s.requests);
        } else {
          AcceptReplyCounted(c, s.proposers[p], act.reply, s.requests);
        }
      } else {
        QuietStepCounted(c, s, act, p);
      }
    }
  }

  lemma BallotStep(c: Config, s: System, act: Action)
    requires BallotInv(c, s) && Enabled(c, s, act)
    ensures BallotInv(c, Apply(c, s, act))
  {
    RequestsOwnedStep(c, s, act);
    OneRequestStep(c, s, act);
    RepliesOwnedStep(c, s, act);
    AcceptorInvStep(c, s, act);
    ProposersSoundStep(c, s, act);
  }

  lemma {:induction false} BallotInvAlways(c: Config, r: Run)
    requires c.n > 0 && Valid(c, r)
    ensures BallotInv(c, Final(c, r))
  {
    match r
    case Start => BallotInit(c);
    case Then(before, act) =>
      BallotInvAlways(c, before);
      BallotStep(c, Final(c, before), act);
  }
}
