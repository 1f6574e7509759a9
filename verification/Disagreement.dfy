/** Runs that choose a value, and runs that choose two, for groups of every size from
    three servers on; and with them the exact conditions for choice and for agreement. */
module Disagreement {
  import opened Options
  import opened Messages
  import opened Acceptors
  import opened Proposers
  import opened Cluster
  import opened Ballots
  import opened BallotSteps
  import opened Quorums
  import opened Consensus
  import opened Scenes
  import opened Replicas
  import opened RoundRuns

  // ---------------------------------------------------------------------
  // One value
  // ---------------------------------------------------------------------

  /** The acknowledgements of servers 1 to n / 2 + 1 to number 0 of server 0. */
  function FirstAcks(n: nat): seq<Message> {
    seq(n / 2 + 1, (j: nat) => FirstAck(0, j + 1, 0))
  }

  lemma FirstAcksCount(v: Variant, n: nat, num: nat)
    requires v.matchProposal ==> num == 0
    ensures MajorityOf(n, FirstAcks(n))
    ensures forall m :: m in FirstAcks(n) ==> Counts(v, num, m, false)
  {
  }

  /** Server 0 asks, the others have not started. */
  lemma Opening(c: Config) returns (x: Scene)
    requires c.n >= 3
    ensures Plays(c, x)
    ensures forall a :: 0 <= a < c.n ==> x.state.acceptors[a] == Fresh(a)
    ensures x.state.proposers[0] == At(0, Proposing, 0, {}, {})
    ensures forall p :: 1 <= p < c.n ==> x.state.proposers[p] == InitProposer(p)
    ensures x.state.requests == {Asking(0, 0)}
  {
    var x0 := Begin(c);
    x := Asks(c, x0, 0);
    assert x0.state.requests + {Asking(0, 0)} == {Asking(0, 0)};
  }

  /** All other servers acknowledge number 0 of server 0. */
  lemma FirstRound(c: Config) returns (x: Scene)
    requires c.n >= 3
    ensures Plays(c, x)
    ensures x.state.acceptors[0] == Fresh(0)
    ensures forall a :: 1 <= a < c.n ==> x.state.acceptors[a] == Promised(a, 0, {Asking(0, 0)})
    ensures x.state.proposers[0] == At(0, Proposing, 0, {}, {})
    ensures forall p :: 1 <= p < c.n ==> x.state.proposers[p] == InitProposer(p)
    ensures x.state.requests == {Asking(0, 0)}
    ensures forall m :: m in FirstAcks(c.n) ==> Packet(0, m) in x.state.replies
  {
    var x0 := Opening(c);
    x := WelcomeAll(c, x0, 0, 0);
  }

  /** Whatever the variant and the size of the group from three servers on, some run
      chooses a value, and a server logs, executes and acknowledges it. */
  lemma SomethingIsResolved(c: Config) returns (r: Run)
    requires c.n >= 3
    ensures Valid(c, r) && Chosen(c, Final(c, r), 0, Wish(0))
    ensures |Final(c, r).proposers| == c.n
    ensures var p := Final(c, r).proposers[0];
      && p.log == [LogEntry(0, Wish(0))] && p.lockSet == [0] && !p.halted && p.acks == [ClientAck(0, Lock(0), Some(10))]
  {
    var asked := TakesCommand(c, Start, 0, Lock(0), 10);
    var done;
    r, done := FirstToAsk(c, asked, 0, Final(c, asked).proposers[0]);
    ReplicaInvAlways(c, r);
    assert LogSound(c, Final(c, r), 0) && Final(c, r).proposers[0] == done;
    FirstTable(done.log);
  }

  /** The table after the first command of server 0. */
  lemma FirstTable(log: seq<LogEntry>)
    requires log == [LogEntry(0, Wish(0))]
    ensures LockTable(log[..1]) == Some([0])
  {
    assert log[..1] == [] + log && CommandsOf([]) == [] && [] + [0] == [0];
    LockTableAppend([], log[0]);
  }

  // ---------------------------------------------------------------------
  // Two values
  // ---------------------------------------------------------------------

  /** What servers 0, 2, ..., n / 2 + 1 answer to number 1 of server 1. */
  function RivalAcks(n: nat): seq<Message> {
    seq(n / 2 + 1, (j: nat) => if j == 0 then FirstAck(1, 0, 1) else LaterAck(1, j + 1))
  }

  lemma RivalAcksCount(v: Variant, n: nat)
    requires !v.abortOnNone
    ensures MajorityOf(n, RivalAcks(n))
    ensures forall m :: m in RivalAcks(n) ==> Counts(v, 1, m, false)
  {
  }

  /** A scene in which server 1 can start and win against the promises to server 0. */
  ghost predicate BeforeRival(c: Config, x: Scene) {
    && Plays(c, x) && c.n >= 3 && !c.variant.abortOnNone
    && x.state.proposers[1] == InitProposer(1)
    && x.state.acceptors[0] == Fresh(0)
    && (forall a :: 2 <= a < c.n ==> x.state.acceptors[a] == Promised(a, 0, {Asking(0, 0)}))
  }

  /** Server 1 asks, and all others promise. */
  lemma RivalAsks(c: Config, x: Scene) returns (y: Scene)
    requires BeforeRival(c, x)
    ensures Plays(c, y) && x.state.replies <= y.state.replies
    ensures y.state.requests == x.state.requests + {Asking(1, 1)}
    ensures y.state.proposers == x.state.proposers[1 := At(1, Proposing, 1, {}, {})]
    ensures y.state.acceptors[0] == Promised(0, 1, {Asking(1, 1)}) && y.state.acceptors[1] == x.state.acceptors[1]
    ensures forall a :: 2 <= a < c.n ==> y.state.acceptors[a] == Promised(a, 1, {Asking(0, 0), Asking(1, 1)})
    ensures Packet(1, FirstAck(1, 0, 1)) in y.state.replies
    ensures forall a :: 2 <= a < c.n ==> Packet(1, LaterAck(1, a)) in y.state.replies
  {
    var m := Asking(1, 1);
    var z := Asks(c, x, 1);
    y := SpreadRequest(c, z, m, c.n);
    WelcomeReply(0, 1, 1);
    SpreadAt(z.state, y.state, m, c.n, 0, Promised(0, 1, {m}), FirstAck(1, 0, 1));
    forall a: nat | 2 <= a < c.n
      ensures y.state.acceptors[a] == Promised(a, 1, {Asking(0, 0), m})
      ensures Packet(1, LaterAck(1, a)) in y.state.replies
    {
      assert m != Asking(0, 0) && {Asking(0, 0)} + {m} == {Asking(0, 0), m};
      PromiseReply(a, 0, {Asking(0, 0)}, 1, 1);
      SpreadAt(z.state, y.state, m, c.n, a, Promised(a, 1, {Asking(0, 0), m}), LaterAck(1, a));
    }
  }

  /** Server 1 has its value accepted under number 1 by all others. */
  lemma RivalIsChosen(c: Config, x: Scene) returns (y: Scene)
    requires BeforeRival(c, x)
    ensures Plays(c, y) && x.state.replies <= y.state.replies
    ensures x.state.requests <= y.state.requests
    ensures forall a :: 0 <= a < c.n && a != 1 ==> Vote(1, 1, 1, a) in y.state.replies
    ensures y.state.acceptors[0] == Voter(0, 1, 1, 1, {Asking(1, 1), Offer(1, 1, 1)})
    ensures y.state.acceptors[1] == x.state.acceptors[1]
    ensures forall a :: 2 <= a < c.n ==>
      y.state.acceptors[a] == Voter(a, 1, 1, 1, {Asking(0, 0), Asking(1, 1), Offer(1, 1, 1)})
    ensures forall p :: 0 <= p < c.n && p != 1 ==> y.state.proposers[p] == x.state.proposers[p]
  {
    var z := RivalAsks(c, x);
    RivalAcksCount(c.variant, c.n);
    var w := Wins(c, z, 1, 1, RivalAcks(c.n));
    y := VoteAll(c, w, 1, 1, 1);
    assert {Asking(1, 1)} + {Offer(1, 1, 1)} == {Asking(1, 1), Offer(1, 1, 1)};
    assert {Asking(0, 0), Asking(1, 1)} + {Offer(1, 1, 1)} == {Asking(0, 0), Asking(1, 1), Offer(1, 1, 1)};
  }

  /** Server 0 times out and offers its value under number n on the answers to number
      0; meanwhile server 1 has its value accepted under number 1. */
  lemma StaleRepliesDisagree(c: Config) returns (r: Run)
    requires c.n >= 3 && !c.variant.abortOnNone && !c.variant.matchProposal
    ensures Valid(c, r)
    ensures Chosen(c, Final(c, r), 0, Wish(0)) && Chosen(c, Final(c, r), 0, Wish(1))
  {
    var x0 := FirstRound(c);
    var x1 := AsksAgain(c, x0, 0, 0);
    FirstAcksCount(c.variant, c.n, c.n);
    var x2 := Wins(c, x1, 0, c.n, FirstAcks(c.n));
    assert Offer(c.n, 0, 0) in x2.state.requests;
    var x3 := RivalIsChosen(c, x2);
    var x4 := VoteAll(c, x3, c.n, 0, 0);
    r := x4.run;
    OthersElect(c, x4.state, 1, 1, 1);
    OthersElect(c, x4.state, c.n, 0, 0);
  }

  /** Server 0's value is accepted by server 1 under number 0, server 1's by all others
      under number 1. */
  lemma TwoValuesAccepted(c: Config) returns (x: Scene)
    requires c.n >= 3 && !c.variant.abortOnNone
    ensures Plays(c, x)
    ensures forall a :: 0 <= a < c.n && a != 1 ==> Vote(1, 1, 1, a) in x.state.replies
    ensures x.state.acceptors[0] == Voter(0, 1, 1, 1, {Asking(1, 1), Offer(1, 1, 1)})
    ensures x.state.acceptors[1] == Voter(1, 0, 0, 0, {Asking(0, 0), Offer(0, 0, 0)})
    ensures forall a :: 2 <= a < c.n ==>
      x.state.acceptors[a] == Voter(a, 1, 1, 1, {Asking(0, 0), Asking(1, 1), Offer(1, 1, 1)})
    ensures x.state.proposers[2] == InitProposer(2)
  {
    var x0 := FirstRound(c);
    FirstAcksCount(c.variant, c.n, 0);
    var x1 := Wins(c, x0, 0, 0, FirstAcks(c.n));
    var x2 := SpreadRequest(c, x1, Offer(0, 0, 0), 2);
    VoteReply(x1.state.acceptors[1], 0, 0, 0);
    assert {Asking(0, 0)} + {Offer(0, 0, 0)} == {Asking(0, 0), Offer(0, 0, 0)};
    var b := Voter(1, 0, 0, 0, {Asking(0, 0), Offer(0, 0, 0)});
    SpreadAt(x1.state, x2.state, Offer(0, 0, 0), 2, 1, b, Vote(0, 0, 0, 1).msg);
    x := RivalIsChosen(c, x2);
  }

  /** What servers 1, 0, 3, ..., n / 2 + 1 answer to number 2 of server 2. */
  function TiedNacks(n: nat): seq<Message> {
    seq(n / 2 + 1, (j: nat) => Nack(2, Refuser(j), Choice(Refuser(j)), Choice(Refuser(j))))
  }

  function Refuser(j: nat): nat {
    if j == 0 then 1 else if j == 1 then 0 else j + 1
  }

  lemma TiedNacksCount(v: Variant, n: nat)
    requires !v.keyOnAccepted && n >= 2
    ensures MajorityOf(n, TiedNacks(n)) && ValueOf(TiedNacks(n)[0]) == Wish(0)
    ensures forall m :: m in TiedNacks(n) ==> Counts(v, 2, m, true)
  {
  }

  /** The value that acceptor a has accepted, under the number of its proposer. */
  function Choice(a: nat): nat {
    if a == 1 then 0 else 1
  }

  /** Acceptor a has accepted its choice and heard nothing of server 2. */
  predicate HasVoted(b: Acceptor, a: nat) {
    b == Voter(a, Choice(a), Choice(a), Choice(a), b.seen) && Asking(2, 2) !in b.seen && Offer(2, 0, 2) !in b.seen
  }

  lemma OldRequestsOnly(b: Acceptor, a: nat)
    requires b == Voter(a, Choice(a), Choice(a), Choice(a), b.seen)
    requires forall m :: m in b.seen ==> m.proposal < 2
    ensures HasVoted(b, a)
  {
  }

  /** Server 2 asks. */
  lemma ThirdAsks(c: Config, x: Scene) returns (y: Scene)
    requires Plays(c, x) && c.n >= 3 && x.state.proposers[2] == InitProposer(2)
    ensures Plays(c, y)
    ensures y.state.acceptors == x.state.acceptors && y.state.replies == x.state.replies
    ensures y.state.proposers[2] == At(2, Proposing, 2, {}, {})
    ensures Asking(2, 2) in y.state.requests
  {
    y := Asks(c, x, 2);
  }

  lemma RefusesAt(x: System, y: System, n: nat, a: nat)
    requires Spread(x, y, Asking(2, 2), n) && a < |x.acceptors| && a < n && a != 2 && HasVoted(x.acceptors[a], a)
    ensures Open(y.acceptors[a], a, Offer(2, 0, 2))
    ensures Packet(2, Nack(2, a, Choice(a), Choice(a))) in y.replies
  {
    var seen, num, m := x.acceptors[a].seen, Choice(a), Asking(2, 2);
    RefusalReply(a, num, num, num, seen, 2, 2);
    SpreadAt(x, y, m, n, a, Voter(a, 2, num, num, seen + {m}), Nack(2, a, num, num));
  }

  /** Every acceptor but that of server 2 has voted, for one value or the other. */
  lemma BothVoted(c: Config) returns (x: Scene)
    requires c.n >= 3 && !c.variant.abortOnNone
    ensures Plays(c, x) && x.state.proposers[2] == InitProposer(2)
    ensures forall a :: 0 <= a < c.n && a != 1 ==> Vote(1, 1, 1, a) in x.state.replies
    ensures forall a :: 0 <= a < c.n && a != 2 ==> HasVoted(x.state.acceptors[a], a)
  {
    x := TwoValuesAccepted(c);
    forall a: nat | a < c.n && a != 2
      ensures HasVoted(x.state.acceptors[a], a)
    {
      OldRequestsOnly(x.state.acceptors[a], a);
    }
  }

  /** All others refuse the request of server 2. */
  lemma AllRefuse(c: Config, x: Scene) returns (y: Scene)
    requires Plays(c, x) && c.n >= 3 && Asking(2, 2) in x.state.requests
    requires forall a :: 0 <= a < c.n && a != 2 ==> HasVoted(x.state.acceptors[a], a)
    ensures Plays(c, y) && y.state.proposers == x.state.proposers && x.state.replies <= y.state.replies
    ensures forall a :: 0 <= a < c.n && a != 2 ==> Open(y.state.acceptors[a], a, Offer(2, 0, 2))
    ensures forall a :: 0 <= a < c.n && a != 2 ==> Packet(2, Nack(2, a, Choice(a), Choice(a))) in y.state.replies
  {
    y := SpreadRequest(c, x, Asking(2, 2), c.n);
    forall a: nat | a < c.n && a != 2
      ensures Open(y.state.acceptors[a], a, Offer(2, 0, 2))
      ensures Packet(2, Nack(2, a, Choice(a), Choice(a))) in y.state.replies
    {
      RefusesAt(x.state, y.state, c.n, a);
    }
  }

  /** Server 2 hears of both values and takes the older one. */
  lemma TiedRepliesDisagree(c: Config) returns (r: Run)
    requires c.n >= 3 && !c.variant.abortOnNone && !c.variant.keyOnAccepted
    ensures Valid(c, r)
    ensures Chosen(c, Final(c, r), 0, Wish(0)) && Chosen(c, Final(c, r), 0, Wish(1))
  {
    var x0 := BothVoted(c);
    var x1 := ThirdAsks(c, x0);
    var x2 := AllRefuse(c, x1);
    TiedNacksCount(c.variant, c.n);
    var x3 := Yields(c, x2, 2, 2, 0, TiedNacks(c.n));
    var x4 := VoteAll(c, x3, 2, 0, 2);
    r := x4.run;
    OthersElect(c, x4.state, 1, 1, 1);
    OthersElect(c, x4.state, 2, 0, 2);
  }

  // ---------------------------------------------------------------------
  // The exact conditions
  // ---------------------------------------------------------------------

  /** No server answers itself. */
  ghost predicate ToOthers(replies: set<Packet>) {
    forall k :: k in replies ==> k.msg.origin != k.dst
  }

  lemma ToOthersStep(c: Config, s: System, act: Action)
    requires Shape(c, s) && Enabled(c, s, act) && ToOthers(s.replies)
    ensures ToOthers(Apply(c, s, act).replies)
  {
    if act.AcceptorReceives? {
      var reply := Receive(s.acceptors[act.a], act.request).1;
      assert reply.Some? ==> reply.value.origin == act.a;
    }
  }

  lemma {:induction false} RepliesGoToOthers(c: Config, r: Run)
    requires c.n > 0 && Valid(c, r)
    ensures ToOthers(Final(c, r).replies)
  {
    match r
    case Start =>
    case Then(before, act) =>
      RepliesGoToOthers(c, before);
      BallotInvAlways(c, before);
      ToOthersStep(c, Final(c, before), act);
  }

  /** Requests skip their origin while a majority is one of all servers, so it takes
      three servers to choose anything. */
  lemma ChoiceTakesThree(c: Config, r: Run, i: nat, v: Value)
    requires c.n > 0 && Valid(c, r) && Chosen(c, Final(c, r), i, v)
    ensures c.n >= 3
  {
    var s := Final(c, r);
    var k: nat :| ChosenAt(c, s, i, k, v);
    var q :| Elects(c, s, i, k, v, q);
    var p := Owner(c.n, k);
    RepliesGoToOthers(c, r);
    OthersCount(c.n, p);
    forall a | a in q
      ensures a in Others(c.n, p)
    {
      assert Voted(c.n, s.replies, a, i, k, v);
    }
    assert q <= Others(c.n, p);
    SubsetSize(q, Others(c.n, p));
  }

  ghost predicate CanChoose(c: Config)
    requires c.n > 0
  {
    exists r, i, v :: Valid(c, r) && Chosen(c, Final(c, r), i, v)
  }

  /** A group can choose a value if and only if it has three servers or more. */
  lemma ChoiceExactly(c: Config)
    requires c.n > 0
    ensures CanChoose(c) <==> c.n >= 3
  {
    if c.n >= 3 {
      var r := SomethingIsResolved(c);
      assert Valid(c, r) && Chosen(c, Final(c, r), 0, Wish(0));
    }
    if CanChoose(c) {
      var r, i, v :| Valid(c, r) && Chosen(c, Final(c, r), i, v);
      ChoiceTakesThree(c, r, i, v);
    }
  }

  /** All runs of a group agree on every instance. */
  ghost predicate AlwaysAgrees(c: Config)
    requires c.n > 0
  {
    forall r, i, a, b ::
      Valid(c, r) && Chosen(c, Final(c, r), i, a) && Chosen(c, Final(c, r), i, b) ==> a == b
  }

  /** A group of three servers or more always agrees if and only if a reply without a
      client aborts the round, or prepare replies are matched to the proposal number and
      ranked by the number they were accepted under. A smaller one chooses nothing. */
  lemma AgreementExactly(c: Config)
    requires c.n > 0
    ensures AlwaysAgrees(c) <==> c.n < 3 || Safe(c.variant)
  {
    if c.n < 3 || Safe(c.variant) {
      forall r, i, a, b | Valid(c, r) && Chosen(c, Final(c, r), i, a) && Chosen(c, Final(c, r), i, b)
        ensures a == b
      {
        ChoiceTakesThree(c, r, i, a);
        Agreement(c, r, i, a, b);
      }
    } else {
      var r;
      if !c.variant.matchProposal {
        r := StaleRepliesDisagree(c);
      } else {
        r := TiedRepliesDisagree(c);
      }
      assert Wish(0) != Wish(1);
    }
  }

  /** The code as written always agrees, and so does the protocol that its comments and
      its messages call for. */
  lemma BothVariantsAgree(n: nat)
    requires n > 0
    ensures AlwaysAgrees(Config(n, AS_WRITTEN)) && AlwaysAgrees(Config(n, INTENDED))
  {
    AgreementExactly(Config(n, AS_WRITTEN));
    AgreementExactly(Config(n, INTENDED));
  }
}
