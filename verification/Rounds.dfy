/** When exactly the waiting loops of a proposer end, told by the messages on its queue. */
module Rounds {
  import opened Messages
  import opened Proposers
  import opened Cluster
  import opened Ballots
  import opened BallotSteps
  import opened Quorums
  import opened Scenes
  import opened ProposerProcesses
  import opened ProposerRules

  lemma SetOfFirst(ms: seq<Message>, k: nat)
    requires 0 < k <= |ms|
    ensures SetOf(ms[..k]) == {ms[0]} + SetOf(ms[1..][..k - 1])
  {
    assert ms[..k] == [ms[0]] + ms[1..][..k - 1];
  }

  lemma SetOfPrefix(ms: seq<Message>, j: nat, k: nat)
    requires j <= k <= |ms|
    ensures SetOf(ms[..j]) <= SetOf(ms[..k])
  {
    assert ms[..k][..j] == ms[..j];
  }

  // ---------------------------------------------------------------------
  // Waiting for promises
  // ---------------------------------------------------------------------

  /** The different promises among some messages. */
  function Promises(v: Variant, p: Proposer, ms: set<Message>): set<Message> {
    set m | m in ms && NewPromise(v, p, m)
  }

  /** No message ends the round. */
  predicate Unbroken(v: Variant, ms: set<Message>) {
    forall m :: m in ms ==> !Breaks(v, m)
  }

  /** The first k messages bring a majority. */
  predicate SufficesAt(v: Variant, n: nat, p: Proposer, queue: seq<Message>, k: nat) {
    && k <= |queue| && Unbroken(v, SetOf(queue[..k]))
    && MoreThanHalf(n, |p.counted + Promises(v, p, SetOf(queue[..k]))|)
  }

  ghost predicate Suffices(v: Variant, n: nat, p: Proposer, queue: seq<Message>) {
    exists k :: SufficesAt(v, n, p, queue, k)
  }

  /** The loop has taken the first k messages and is still waiting, or has enough. */
  ghost predicate HasTaken(v: Variant, p: Proposer, ms: set<Message>, q: Proposer) {
    && q == p.(seen := q.seen, counted := q.counted, responses := q.responses, nacks := q.nacks)
    && q.seen == p.seen + ms && q.counted == p.counted + Promises(v, p, ms)
    && KeepsCount(v, q)
  }

  lemma TakesNothing(v: Variant, p: Proposer)
    requires KeepsCount(v, p)
    ensures HasTaken(v, p, {}, p)
  {
    assert p.seen + {} == p.seen && Promises(v, p, {}) == {} && p.counted + {} == p.counted;
  }

  /** The promise that one message is, if it is one. */
  function PromiseIn(v: Variant, p: Proposer, m: Message): set<Message> {
    if NewPromise(v, p, m) then {m} else {}
  }

  lemma PromisesFirst(v: Variant, p: Proposer, m: Message, a: Proposer, ms: set<Message>)
    requires a.seen == p.seen + {m} && a.instance == p.instance && a.num == p.num
    ensures Promises(v, p, {m} + ms) == PromiseIn(v, p, m) + Promises(v, a, ms)
  {
    forall x
      ensures x in Promises(v, p, {m} + ms) <==> x in PromiseIn(v, p, m) + Promises(v, a, ms)
    {
      assert CountsAsPromise(v, p, x) == CountsAsPromise(v, a, x);
    }
  }

  lemma UnionsAssociate(a: set<Message>, b: set<Message>, d: set<Message>)
    ensures a + b + d == a + (b + d)
  {
  }

  /** One message first, the others afterwards. */
  lemma TakesFirst(v: Variant, p: Proposer, m: Message, a: Proposer, ms: set<Message>, q: Proposer)
    requires if NewPromise(v, p, m) then Counted(p, m, a) else a == p.(seen := p.seen + {m})
    requires HasTaken(v, a, ms, q)
    ensures HasTaken(v, p, {m} + ms, q)
  {
    PromisesFirst(v, p, m, a, ms);
    UnionsAssociate(p.seen, {m}, ms);
    assert a.counted == p.counted + PromiseIn(v, p, m);
    UnionsAssociate(p.counted, PromiseIn(v, p, m), Promises(v, a, ms));
  }

  /** The loop takes messages until one breaks the round, enough is counted, or the queue
      is empty; k says how many it has taken without breaking. */
  ghost predicate Absorbed(v: Variant, n: nat, p: Proposer, queue: seq<Message>, k: nat, w: Proposer, q: Proposer) {
    && k <= |queue|
    && Unbroken(v, SetOf(queue[..k])) && HasTaken(v, p, SetOf(queue[..k]), w)
    && (forall j :: 0 <= j < k ==> !SufficesAt(v, n, p, queue, j))
    && if MoreThanHalf(n, |w.counted|) then q == w
       else if k < |queue| then Breaks(v, queue[k]) && q == AbortPrepare(n, w)
       else q == w
  }

  /** What suffices after one message suffices with it. */
  lemma SufficesAfter(v: Variant, n: nat, p: Proposer, queue: seq<Message>, a: Proposer, j: nat)
    requires queue != [] && 0 < j
    requires if NewPromise(v, p, queue[0]) then Counted(p, queue[0], a) else a == p.(seen := p.seen + {queue[0]})
    requires SufficesAt(v, n, p, queue, j)
    ensures SufficesAt(v, n, a, queue[1..], j - 1)
  {
    var ms := SetOf(queue[1..][..j - 1]);
    SetOfFirst(queue, j);
    PromisesFirst(v, p, queue[0], a, ms);
    assert a.counted == p.counted + PromiseIn(v, p, queue[0]);
    UnionsAssociate(p.counted, PromiseIn(v, p, queue[0]), Promises(v, a, ms));
  }

  lemma NotYet(v: Variant, n: nat, p: Proposer, queue: seq<Message>)
    requires KeepsCount(v, p) && !Majority(n, p.responses)
    ensures !SufficesAt(v, n, p, queue, 0)
  {
    assert queue[..0] == [] && SetOf([]) == {};
    assert p.counted + Promises(v, p, {}) == p.counted;
  }

  lemma AbsorbedFirst(v: Variant, n: nat, p: Proposer, queue: seq<Message>, a: Proposer, k: nat, w: Proposer,
                      q: Proposer)
    requires KeepsCount(v, p) && !Majority(n, p.responses) && queue != [] && !Breaks(v, queue[0])
    requires if NewPromise(v, p, queue[0]) then Counted(p, queue[0], a) else a == p.(seen := p.seen + {queue[0]})
    requires Absorbed(v, n, a, queue[1..], k, w, q)
    ensures Absorbed(v, n, p, queue, k + 1, w, q)
  {
    SetOfFirst(queue, k + 1);
    assert queue[1..][..k + 1 - 1] == queue[1..][..k];
    TakesFirst(v, p, queue[0], a, SetOf(queue[1..][..k]), w);
    assert k + 1 < |queue| ==> queue[1..][k] == queue[k + 1];
    forall j | 0 <= j < k + 1
      ensures !SufficesAt(v, n, p, queue, j)
    {
      if j == 0 {
        NotYet(v, n, p, queue);
      } else if SufficesAt(v, n, p, queue, j) {
        SufficesAfter(v, n, p, queue, a, j);
      }
    }
  }

  lemma {:induction false} AbsorbAllByRule(v: Variant, n: nat, p: Proposer, queue: seq<Message>)
    returns (k: nat, w: Proposer)
    requires KeepsCount(v, p) && forall m :: m in queue ==> !IsRequest(m)
    ensures Absorbed(v, n, p, queue, k, w, AbsorbAll(v, n, p, queue))
    decreases |queue|
  {
    TakesNothing(v, p);
    assert queue[..0] == [] && SetOf([]) == {};
    if queue == [] || Majority(n, p.responses) || Breaks(v, queue[0]) {
      k, w := 0, p;
      if queue != [] && !Majority(n, p.responses) {
        assert AbsorbPrepareReply(v, n, p, queue[0]) == AbortPrepare(n, p);
      }
    } else {
      AbsorbByRule(v, n, p, queue[0]);
      var a := AbsorbPrepareReply(v, n, p, queue[0]);
      KeepsCountUnseen(v, p, queue[0]);
      k, w := AbsorbAllByRule(v, n, a, queue[1..]);
      AbsorbedFirst(v, n, p, queue, a, k, w, AbsorbAll(v, n, a, queue[1..]));
      k := k + 1;
    }
  }

  lemma KeepsCountUnseen(v: Variant, p: Proposer, m: Message)
    requires KeepsCount(v, p)
    ensures KeepsCount(v, p.(seen := p.seen + {m}))
  {
  }

  lemma NotAfterBreak(v: Variant, n: nat, p: Proposer, queue: seq<Message>, k: nat, j: nat)
    requires k < |queue| && Breaks(v, queue[k]) && k < j
    ensures !SufficesAt(v, n, p, queue, j)
  {
    if j <= |queue| {
      assert queue[k] in queue[..j];
    }
  }

  lemma SufficesAtTaken(v: Variant, n: nat, p: Proposer, queue: seq<Message>, k: nat, w: Proposer)
    requires k <= |queue| && Unbroken(v, SetOf(queue[..k])) && HasTaken(v, p, SetOf(queue[..k]), w)
    ensures SufficesAt(v, n, p, queue, k) <==> MoreThanHalf(n, |w.counted|)
  {
  }

  /** The loop ends with enough if and only if the queue has enough before a break. */
  lemma SufficesExactly(v: Variant, n: nat, p: Proposer, queue: seq<Message>, k: nat, w: Proposer, q: Proposer)
    requires Absorbed(v, n, p, queue, k, w, q)
    ensures SufficesAt(v, n, p, queue, k) <==> MoreThanHalf(n, |w.counted|)
    ensures Suffices(v, n, p, queue) <==> MoreThanHalf(n, |w.counted|)
  {
    SufficesAtTaken(v, n, p, queue, k, w);
    if j: nat :| SufficesAt(v, n, p, queue, j) && j != k {
      assert j > k && j <= |queue|;
      if !MoreThanHalf(n, |w.counted|) {
        NotAfterBreak(v, n, p, queue, k, j);
      }
    }
  }

  /** The round was decided on the first k messages of the queue, and not before. */
  ghost predicate DecidedAt(c: Config, p: Proposer, queue: seq<Message>, k: nat, q: Proposer) {
    && SufficesAt(c.variant, c.n, p, queue, k)
    && (forall j :: 0 <= j < k ==> !SufficesAt(c.variant, c.n, p, queue, j))
    && q.seen == p.seen + SetOf(queue[..k])
    && DecidesByRule(c, p, Refusals(p.counted + Promises(c.variant, p, SetOf(queue[..k]))), q)
  }

  /** The round failed: the next one goes out under the next number, and nothing is learnt. */
  predicate Failed(c: Config, p: Proposer, q: Proposer) {
    q == p.(phase := Ready, num := p.num + c.n, seen := q.seen, counted := q.counted,
            responses := q.responses, nacks := q.nacks)
  }

  /** Decided at some beginning of the queue, or failed. */
  ghost predicate PromiseOutcome(c: Config, p: Proposer, queue: seq<Message>, q: Proposer) {
    if Suffices(c.variant, c.n, p, queue) then exists k :: DecidedAt(c, p, queue, k, q) else Failed(c, p, q)
  }

  /** The rule speaks of what was held before the replies were counted. */
  lemma DecidesFrom(c: Config, p: Proposer, w: Proposer, nacks: set<Message>, q: Proposer)
    requires w == p.(seen := w.seen, counted := w.counted, responses := w.responses, nacks := w.nacks)
    requires DecidesByRule(c, w, nacks, q)
    ensures DecidesByRule(c, p, nacks, q)
  {
  }

  lemma AbsorbedDecides(c: Config, p: Proposer, queue: seq<Message>, k: nat, w: Proposer, pick: nat)
    requires Absorbed(c.variant, c.n, p, queue, k, w, w) && MoreThanHalf(c.n, |w.counted|)
    requires PickOk(c.variant, w, pick)
    ensures DecidedAt(c, p, queue, k, Decide(c.n, w, pick))
  {
    var q := Decide(c.n, w, pick);
    DecideByRule(c, w, pick);
    SufficesAtTaken(c.variant, c.n, p, queue, k, w);
    DecidesFrom(c, p, w, Refusals(w.counted), q);
    assert q.seen == w.seen;
  }

  /** The loop either has enough and goes on to decide, or gives the round up. */
  lemma AbsorbedEnds(c: Config, p: Proposer, queue: seq<Message>, k: nat, w: Proposer, pick: nat)
    requires Absorbed(c.variant, c.n, p, queue, k, w, AbsorbAll(c.variant, c.n, p, queue))
    ensures PromiseRound(c.variant, c.n, p, queue, pick)
         == if MoreThanHalf(c.n, |w.counted|) then Decide(c.n, w, pick) else AbortPrepare(c.n, w)
    ensures MoreThanHalf(c.n, |w.counted|) ==> AbsorbAll(c.variant, c.n, p, queue) == w
  {
    assert w.responses == |w.counted|;
  }

  lemma OutcomeOfAbsorbed(c: Config, p: Proposer, queue: seq<Message>, k: nat, w: Proposer, pick: nat)
    requires Absorbed(c.variant, c.n, p, queue, k, w, AbsorbAll(c.variant, c.n, p, queue))
    requires PickOk(c.variant, AbsorbAll(c.variant, c.n, p, queue), pick)
    ensures PromiseOutcome(c, p, queue, PromiseRound(c.variant, c.n, p, queue, pick))
  {
    SufficesExactly(c.variant, c.n, p, queue, k, w, AbsorbAll(c.variant, c.n, p, queue));
    AbsorbedEnds(c, p, queue, k, w, pick);
    if MoreThanHalf(c.n, |w.counted|) {
      AbsorbedDecides(c, p, queue, k, w, pick);
    }
  }

  /** In every run, what the PROPOSING branch makes of the replies on its queue: with more
      than half of the group counted before a reply that breaks the round, it decides on
      the shortest such beginning of the queue; otherwise the round fails. */
  lemma PromiseRoundExactly(c: Config, r: Run, p: nat, queue: seq<Message>, pick: nat)
    requires c.n > 0 && Valid(c, r) && InPhase(Final(c, r), p, Proposing)
    requires forall m :: m in queue ==> Packet(p, m) in Final(c, r).replies
    requires PickOk(c.variant, AbsorbAll(c.variant, c.n, Final(c, r).proposers[p], queue), pick)
    ensures var before := Final(c, r).proposers[p];
      var after := PromiseRound(c.variant, c.n, before, queue, pick);
      if Suffices(c.variant, c.n, before, queue) then exists k :: DecidedAt(c, before, queue, k, after)
      else Failed(c, before, after)
  {
    WaitingKeepsCount(c, r, p);
    var k, w := AbsorbAllByRule(c.variant, c.n, Final(c, r).proposers[p], queue);
    OutcomeOfAbsorbed(c, Final(c, r).proposers[p], queue, k, w, pick);
  }

  // ---------------------------------------------------------------------
  // Waiting for votes
  // ---------------------------------------------------------------------

  /** The different votes among some messages. */
  function Votes(p: Proposer, ms: set<Message>): set<Message> {
    set m | m in ms && NewVote(p, m)
  }

  function VoteIn(p: Proposer, m: Message): set<Message> {
    if NewVote(p, m) then {m} else {}
  }

  lemma VotesFirst(p: Proposer, m: Message, a: Proposer, ms: set<Message>)
    requires a.seen == p.seen + {m} && a.instance == p.instance && a.num == p.num
    ensures Votes(p, {m} + ms) == VoteIn(p, m) + Votes(a, ms)
  {
  }

  /** The loop has taken these messages and is still waiting. */
  ghost predicate HasPolled(p: Proposer, ms: set<Message>, q: Proposer) {
    && q == p.(seen := q.seen, counted := q.counted, responses := q.responses)
    && q.seen == p.seen + ms && q.counted == p.counted + Votes(p, ms) && q.responses == |q.counted|
  }

  /** The books of a proposer that waits for votes, none of the messages being out of place. */
  ghost predicate Polls(p: Proposer, queue: seq<Message>) {
    && VotesCounted(p) && p.phase.Accepting? && !p.halted
    && forall m :: m in queue ==> !IsRequest(m) && m.instance <= p.instance
  }

  /** The branch resolves on the vote that completes the majority, or times out. */
  ghost predicate PolledTo(n: nat, p: Proposer, queue: seq<Message>, k: nat, w: Proposer, q: Proposer) {
    && k <= |queue| && HasPolled(p, SetOf(queue[..k]), w)
    && if MoreThanHalf(n, |w.counted|) then 0 < k && NewVote(p, queue[k - 1]) && q == Finish(n, w, queue[k - 1])
       else k == |queue| && q == AbortAccept(n, w)
  }

  lemma PolledFirst(n: nat, p: Proposer, queue: seq<Message>, a: Proposer, k: nat, w: Proposer, q: Proposer)
    requires queue != [] && a.nacks == p.nacks && a.responses == |a.counted|
    requires if NewVote(p, queue[0]) then Counted(p, queue[0], a) else a == p.(seen := p.seen + {queue[0]})
    requires PolledTo(n, a, queue[1..], k, w, q)
    ensures PolledTo(n, p, queue, k + 1, w, q)
  {
    var m, ms := queue[0], SetOf(queue[1..][..k]);
    SetOfFirst(queue, k + 1);
    assert queue[1..][..k + 1 - 1] == queue[1..][..k];
    VotesFirst(p, m, a, ms);
    UnionsAssociate(p.seen, {m}, ms);
    assert a.counted == p.counted + VoteIn(p, m);
    UnionsAssociate(p.counted, VoteIn(p, m), Votes(a, ms));
    assert k > 0 ==> queue[1..][k - 1] == queue[k];
  }

  lemma PollsNothing(p: Proposer, queue: seq<Message>)
    requires Polls(p, queue)
    ensures HasPolled(p, SetOf(queue[..0]), p)
  {
    assert queue[..0] == [] && SetOf([]) == {};
    assert p.seen + {} == p.seen && Votes(p, {}) == {} && p.counted + {} == p.counted;
  }

  /** One vote of the loop. */
  lemma VoteRoundTakes(n: nat, p: Proposer, queue: seq<Message>, a: Proposer)
    requires Polls(p, queue) && queue != [] && a == AbsorbAcceptReply(p, queue[0])
    ensures if NewVote(p, queue[0]) then Counted(p, queue[0], a) else a == p.(seen := p.seen + {queue[0]})
    ensures Polls(a, queue[1..]) && a.nacks == p.nacks && a.responses == |a.counted|
    ensures VoteRound(n, p, queue)
         == if MoreThanHalf(n, |a.counted|) then Finish(n, a, queue[0]) else VoteRound(n, a, queue[1..])
  {
    VoteAbsorbed(p, queue[0]);
    AbsorbCountsVotes(p, queue[0]);
    if MoreThanHalf(n, |a.counted|) {
      FinishEnds(n, a, queue[0]);
    }
  }

  lemma {:induction false} VoteRoundByRule(n: nat, p: Proposer, queue: seq<Message>) returns (k: nat, w: Proposer)
    requires Polls(p, queue) && !MoreThanHalf(n, |p.counted|)
    ensures PolledTo(n, p, queue, k, w, VoteRound(n, p, queue))
    decreases |queue|
  {
    if queue == [] {
      PollsNothing(p, queue);
      k, w := 0, p;
    } else {
      var a := AbsorbAcceptReply(p, queue[0]);
      VoteRoundTakes(n, p, queue, a);
      if MoreThanHalf(n, |a.counted|) {
        PolledOne(n, p, queue, a);
        k, w := 1, a;
      } else {
        k, w := VoteRoundByRule(n, a, queue[1..]);
        PolledFirst(n, p, queue, a, k, w, VoteRound(n, a, queue[1..]));
        k := k + 1;
      }
    }
  }

  lemma PolledOne(n: nat, p: Proposer, queue: seq<Message>, a: Proposer)
    requires queue != [] && VotesCounted(a) && a.nacks == p.nacks && !MoreThanHalf(n, |p.counted|)
    requires if NewVote(p, queue[0]) then Counted(p, queue[0], a) else a == p.(seen := p.seen + {queue[0]})
    requires MoreThanHalf(n, |a.counted|)
    ensures PolledTo(n, p, queue, 1, a, Finish(n, a, queue[0]))
  {
    assert queue[..1] == [queue[0]] && SetOf([queue[0]]) == {queue[0]};
    assert Votes(p, {queue[0]}) == VoteIn(p, queue[0]);
  }

  /** The votes that a queue brings are a majority. */
  predicate Elected(n: nat, p: Proposer, queue: seq<Message>) {
    MoreThanHalf(n, |p.counted + Votes(p, SetOf(queue))|)
  }

  lemma ElectedExactly(n: nat, p: Proposer, queue: seq<Message>, k: nat, w: Proposer, q: Proposer)
    requires PolledTo(n, p, queue, k, w, q)
    ensures Elected(n, p, queue) <==> MoreThanHalf(n, |w.counted|)
  {
    assert queue[..|queue|] == queue;
    assert Votes(p, SetOf(queue[..k])) <= Votes(p, SetOf(queue)) by {
      SetOfPrefix(queue, k, |queue|);
    }
    SubsetSize(w.counted, p.counted + Votes(p, SetOf(queue)));
  }

  /** The round timed out: the number is raised twice and the value is kept. */
  predicate TimedOut(c: Config, p: Proposer, q: Proposer) {
    q == p.(phase := Ready, num := p.num + 2 * c.n, seen := q.seen, counted := q.counted, responses := q.responses)
  }

  /** In every run, what the ACCEPTING branch makes of the replies on its queue: it
      resolves its instance if and only if different votes for its number make up more
      than half of the group, in whatever order they come. */
  lemma VoteRoundExactly(c: Config, r: Run, p: nat, queue: seq<Message>)
    requires c.n > 0 && Valid(c, r) && InPhase(Final(c, r), p, Accepting)
    requires forall m :: m in queue ==> Packet(p, m) in Final(c, r).replies
    ensures var before := Final(c, r).proposers[p];
      var after := VoteRound(c.n, before, queue);
      if Elected(c.n, before, queue) then ResolvesByRule(c, before, after) else TimedOut(c, before, after)
  {
    WaitingForVotes(c, r, p);
    var before := Final(c, r).proposers[p];
    var k, w := VoteRoundByRule(c.n, before, queue);
    ElectedExactly(c.n, before, queue, k, w, VoteRound(c.n, before, queue));
    if MoreThanHalf(c.n, |w.counted|) {
      assert queue[k - 1] in queue;
      VotesAreForValue(c, r, p, queue[k - 1]);
      FinishByRule(c, w, queue[k - 1]);
    }
  }
}
