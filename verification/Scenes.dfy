/** Building blocks for concrete runs of a group of any size. */
module Scenes {
  import opened Options
  import opened Commands
  import opened Messages
  import opened Acceptors
  import opened Proposers
  import opened Cluster
  import opened Ballots
  import opened Consensus

  function Lock(resource: int): Command {
    Command(LOCK, resource)
  }

  /** The value that server p proposes for its client 10 + p. */
  function Wish(p: nat): Value {
    Value(Cmd(Lock(p)), Some(10 + p))
  }

  function FirstAck(proposal: nat, origin: nat, p: nat): Message {
    Message(PREPARE_ACK, proposal, 0, ClientId(10 + p), origin, Some(NO_CLIENT), NO_PROPOSAL)
  }

  function LaterAck(proposal: nat, origin: nat): Message {
    Message(PREPARE_ACK, proposal, 0, NoValue, origin, None, NO_PROPOSAL)
  }

  function Nack(num: nat, a: nat, num0: nat, wish: nat): Message {
    Message(PREPARE_NACK, num, 0, Wish(wish).payload, a, Wish(wish).client, num0)
  }

  function Asking(num: nat, p: nat): Message {
    PrepareMsg(num, 0, p, 10 + p)
  }

  function Offer(num: nat, wish: nat, p: nat): Message {
    AcceptMsg(num, 0, Wish(wish), p)
  }

  function Vote(num: nat, wish: nat, p: nat, a: nat): Packet {
    Packet(p, AcceptAckMsg(num, 0, Wish(wish), a))
  }

  /** A proposer in the given phase, on behalf of its client. */
  function At(p: nat, phase: Phase, num: nat, counted: set<Message>, seen: set<Message>): Proposer {
    InitProposer(p).(phase := phase, num := num, command := Lock(p), client := 10 + p, learnt := Wish(p),
                     responses := |counted|, counted := counted, seen := seen)
  }

  /** An acceptor that has promised num and accepted nothing. */
  function Promised(a: nat, num: nat, seen: set<Message>): Acceptor {
    Acceptor(a, map[0 := Entry(num, NO_PROPOSAL, NoValue, None)], seen)
  }

  function Fresh(a: nat): Acceptor {
    Acceptor(a, map[], {})
  }

  /** An acceptor that has promised prep and accepted a wish under num. */
  function Voter(a: nat, prep: nat, num: nat, wish: nat, seen: set<Message>): Acceptor {
    Acceptor(a, map[0 := Entry(prep, num, Wish(wish).payload, Wish(wish).client)], seen)
  }

  // ---------------------------------------------------------------------
  // Single steps
  // ---------------------------------------------------------------------

  /** A run whose final state is known. */
  datatype Scene = Scene(run: Run, state: System)

  ghost predicate Plays(c: Config, x: Scene) {
    Valid(c, x.run) && Final(c, x.run) == x.state && |x.state.acceptors| == |x.state.proposers| == c.n
  }

  lemma Play(c: Config, x: Scene, act: Action) returns (y: Scene)
    requires Plays(c, x) && Enabled(c, x.state, act)
    ensures Plays(c, y) && y.run == Then(x.run, act) && y.state == Apply(c, x.state, act)
  {
    y := Scene(Then(x.run, act), Apply(c, x.state, act));
  }

  lemma Begin(c: Config) returns (x: Scene)
    ensures Plays(c, x)
    ensures forall a :: 0 <= a < c.n ==> x.state.acceptors[a] == Fresh(a)
    ensures forall p :: 0 <= p < c.n ==> x.state.proposers[p] == InitProposer(p)
    ensures x.state.requests == {}
  {
    x := Scene(Start, Init(c));
  }

  lemma SendsRequest(c: Config, x: Scene, p: nat, num: nat) returns (y: Scene)
    requires Plays(c, x) && p < c.n && x.state.proposers[p] == At(p, Ready, num, {}, {})
    ensures Plays(c, y)
    ensures y.state == x.state.(proposers := x.state.proposers[p := At(p, Proposing, num, {}, {})],
                                requests := x.state.requests + {Asking(num, p)})
  {
    y := Play(c, x, SendsPrepare(p));
  }

  /** Server p takes the command of its client and sends its first prepare request. */
  lemma Asks(c: Config, x: Scene, p: nat) returns (y: Scene)
    requires Plays(c, x) && p < c.n && x.state.proposers[p] == InitProposer(p)
    ensures Plays(c, y)
    ensures y.state == x.state.(proposers := x.state.proposers[p := At(p, Proposing, p, {}, {})],
                                requests := x.state.requests + {Asking(p, p)})
  {
    var z := Play(c, x, ClientSubmits(p, Lock(p), 10 + p));
    assert z.state == x.state.(proposers := x.state.proposers[p := At(p, Ready, p, {}, {})]);
    y := SendsRequest(c, z, p, p);
    assert y.state.proposers == x.state.proposers[p := At(p, Proposing, p, {}, {})];
  }

  lemma GivesUp(c: Config, x: Scene, p: nat, num: nat) returns (y: Scene)
    requires Plays(c, x) && p < c.n && x.state.proposers[p] == At(p, Proposing, num, {}, {})
    ensures Plays(c, y)
    ensures y.state == x.state.(proposers := x.state.proposers[p := At(p, Ready, num + c.n, {}, {})])
  {
    y := Play(c, x, TimesOut(p));
  }

  /** Server p gives up its round and starts one with its next number. */
  lemma AsksAgain(c: Config, x: Scene, p: nat, num: nat) returns (y: Scene)
    requires Plays(c, x) && p < c.n && x.state.proposers[p] == At(p, Proposing, num, {}, {})
    ensures Plays(c, y)
    ensures y.state == x.state.(proposers := x.state.proposers[p := At(p, Proposing, num + c.n, {}, {})],
                                requests := x.state.requests + {Asking(num + c.n, p)})
  {
    var z := GivesUp(c, x, p, num);
    y := SendsRequest(c, z, p, num + c.n);
    assert y.state.proposers == x.state.proposers[p := At(p, Proposing, num + c.n, {}, {})];
  }

  // ---------------------------------------------------------------------
  // One request for many acceptors
  // ---------------------------------------------------------------------

  /** From x to y the acceptors below k have taken request m, all but its origin. */
  ghost predicate Spread(x: System, y: System, m: Message, k: nat)
    requires IsRequest(m)
  {
    && y.proposers == x.proposers && y.requests == x.requests && x.replies <= y.replies
    && |y.acceptors| == |x.acceptors|
    && (forall a :: 0 <= a < |x.acceptors| ==>
          y.acceptors[a] == if a < k && a != m.origin then Receive(x.acceptors[a], m).0 else x.acceptors[a])
    && (forall a :: 0 <= a < |x.acceptors| && a < k && a != m.origin && Receive(x.acceptors[a], m).1.Some? ==>
          Packet(m.origin, Receive(x.acceptors[a], m).1.value) in y.replies)
  }

  lemma {:induction false} SpreadRequest(c: Config, x: Scene, m: Message, k: nat) returns (y: Scene)
    requires Plays(c, x) && IsRequest(m) && m in x.state.requests && k <= c.n
    ensures Plays(c, y) && Extends(x.run, y.run) && Spread(x.state, y.state, m, k)
  {
    if k == 0 {
      y := x;
    } else {
      y := SpreadRequest(c, x, m, k - 1);
      if k - 1 != m.origin {
        var z := y;
        y := Play(c, z, AcceptorReceives(k - 1, m));
        ExtendsThrough(x.run, z.run, y.run);
      }
    }
  }

  lemma WelcomeReply(a: nat, num: nat, p: nat)
    ensures Receive(Fresh(a), Asking(num, p))
         == (Promised(a, num, {Asking(num, p)}), Some(FirstAck(num, a, p)))
  {
    assert Fresh(a).seen + {Asking(num, p)} == {Asking(num, p)};
  }

  lemma PromiseReply(a: nat, prep: nat, seen: set<Message>, num: nat, p: nat)
    requires prep < num && Asking(num, p) !in seen
    ensures Receive(Promised(a, prep, seen), Asking(num, p))
         == (Promised(a, num, seen + {Asking(num, p)}), Some(LaterAck(num, a)))
  {
    var e := Entry(num, NO_PROPOSAL, NoValue, None);
    assert Promised(a, prep, seen).history[0 := e] == map[0 := e];
  }

  lemma RefusalReply(a: nat, prep: nat, num0: nat, wish: nat, seen: set<Message>, num: nat, p: nat)
    requires prep < num && Asking(num, p) !in seen
    ensures Receive(Voter(a, prep, num0, wish, seen), Asking(num, p))
         == (Voter(a, num, num0, wish, seen + {Asking(num, p)}), Some(Nack(num, a, num0, wish)))
  {
    var e := Entry(num, num0, Wish(wish).payload, Wish(wish).client);
    assert Voter(a, prep, num0, wish, seen).history[0 := e] == map[0 := e];
  }

  /** An acceptor with one entry takes an offer whose number is high enough. */
  lemma VoteReply(b: Acceptor, num: nat, wish: nat, p: nat)
    requires Offer(num, wish, p) !in b.seen && b.history.Keys == {0} && b.history[0].prep <= num
    ensures Receive(b, Offer(num, wish, p))
         == (Voter(b.id, num, num, wish, b.seen + {Offer(num, wish, p)}), Some(Vote(num, wish, p, b.id).msg))
  {
    var e := Entry(num, num, Wish(wish).payload, Wish(wish).client);
    assert b.history[0 := e] == map[0 := e];
  }

  /** What one acceptor makes of a request that was spread to it. */
  lemma SpreadAt(x: System, y: System, m: Message, k: nat, a: nat, b: Acceptor, reply: Message)
    requires IsRequest(m) && Spread(x, y, m, k) && a < |x.acceptors| && a < k && a != m.origin
    requires Receive(x.acceptors[a], m) == (b, Some(reply))
    ensures y.acceptors[a] == b && Packet(m.origin, reply) in y.replies
  {
  }

  /** All other acceptors hear of the instance for the first time. */
  lemma WelcomeAll(c: Config, x: Scene, num: nat, p: nat) returns (y: Scene)
    requires Plays(c, x) && p < c.n && Asking(num, p) in x.state.requests
    requires forall a :: 0 <= a < c.n && a != p ==> x.state.acceptors[a] == Fresh(a)
    ensures Plays(c, y) && Spread(x.state, y.state, Asking(num, p), c.n)
    ensures forall a :: 0 <= a < c.n && a != p ==> y.state.acceptors[a] == Promised(a, num, {Asking(num, p)})
    ensures forall a :: 0 <= a < c.n && a != p ==> Packet(p, FirstAck(num, a, p)) in y.state.replies
  {
    y := SpreadRequest(c, x, Asking(num, p), c.n);
    forall a: nat | a < c.n && a != p
      ensures y.state.acceptors[a] == Promised(a, num, {Asking(num, p)})
      ensures Packet(p, FirstAck(num, a, p)) in y.state.replies
    {
      WelcomeReply(a, num, p);
      SpreadAt(x.state, y.state, Asking(num, p), c.n, a, Promised(a, num, {Asking(num, p)}), FirstAck(num, a, p));
    }
  }

  /** An acceptor that will take the offer. */
  predicate Open(b: Acceptor, a: nat, offer: Message) {
    b.id == a && offer !in b.seen && b.history.Keys == {0} && b.history[0].prep <= offer.proposal
  }

  /** All other acceptors accept an offer. */
  lemma VoteAll(c: Config, x: Scene, num: nat, wish: nat, p: nat) returns (y: Scene)
    requires Plays(c, x) && p < c.n && Offer(num, wish, p) in x.state.requests
    requires forall a :: 0 <= a < c.n && a != p ==> Open(x.state.acceptors[a], a, Offer(num, wish, p))
    ensures Plays(c, y) && Spread(x.state, y.state, Offer(num, wish, p), c.n)
    ensures forall a :: 0 <= a < c.n && a != p ==>
      y.state.acceptors[a] == Voter(a, num, num, wish, x.state.acceptors[a].seen + {Offer(num, wish, p)})
    ensures forall a :: 0 <= a < c.n && a != p ==> Vote(num, wish, p, a) in y.state.replies
  {
    var m := Offer(num, wish, p);
    y := SpreadRequest(c, x, m, c.n);
    forall a: nat | a < c.n && a != p
      ensures y.state.acceptors[a] == Voter(a, num, num, wish, x.state.acceptors[a].seen + {m})
      ensures Vote(num, wish, p, a) in y.state.replies
    {
      var b := x.state.acceptors[a];
      assert Open(b, a, m);
      VoteReply(b, num, wish, p);
      SpreadAt(x.state, y.state, m, c.n, a, Voter(a, num, num, wish, b.seen + {m}), Vote(num, wish, p, a).msg);
    }
  }

  // ---------------------------------------------------------------------
  // Many replies for one proposer
  // ---------------------------------------------------------------------

  /** More than half of the group answered, each message a different one. */
  predicate MajorityOf(n: nat, ms: seq<Message>) {
    && |ms| == n / 2 + 1
    && forall i, j :: 0 <= i < j < |ms| ==> ms[i] != ms[j]
  }

  function SetOf(ms: seq<Message>): set<Message> {
    set m | m in ms
  }

  lemma {:induction false} SetOfDistinct(ms: seq<Message>)
    requires forall i, j :: 0 <= i < j < |ms| ==> ms[i] != ms[j]
    ensures |SetOf(ms)| == |ms|
  {
    if ms != [] {
      var before, last := ms[..|ms| - 1], ms[|ms| - 1];
      SetOfDistinct(before);
      assert SetOf(ms) == SetOf(before) + {last};
    }
  }

  lemma SetOfNext(ms: seq<Message>, j: nat)
    requires j < |ms| && forall i, k :: 0 <= i < k < |ms| ==> ms[i] != ms[k]
    ensures SetOf(ms[..j + 1]) == SetOf(ms[..j]) + {ms[j]}
    ensures ms[j] !in SetOf(ms[..j]) && |SetOf(ms[..j])| == j && |SetOf(ms[..j + 1])| == j + 1
  {
    SetOfDistinct(ms[..j]);
    SetOfDistinct(ms[..j + 1]);
    assert ms[..j + 1] == ms[..j] + [ms[j]];
  }

  /** What a proposer that waits for promises takes ms to be: all acknowledgements, or
      all NACKs that tie. */
  predicate Counts(v: Variant, num: nat, m: Message, nack: bool) {
    && m.instance == 0 && (v.abortOnNone ==> m.client.Some?)
    && (if nack then m.kind.PREPARE_NACK? && m.proposal == num && !v.keyOnAccepted
        else m.kind.PREPARE_ACK? && (v.matchProposal ==> m.proposal == num))
  }

  /** The proposer after the first replies. */
  function Heard(p: nat, num: nat, ms: seq<Message>, nack: bool): Proposer {
    At(p, Proposing, num, SetOf(ms), SetOf(ms)).(nacks := if nack then ms else [])
  }

  lemma HearsNew(v: Variant, n: nat, p: nat, num: nat, counted: set<Message>, nacks: seq<Message>,
                 m: Message, nack: bool)
    requires m !in counted && Counts(v, num, m, nack)
    ensures AbsorbPrepareReply(v, n, At(p, Proposing, num, counted, counted).(nacks := nacks), m)
         == At(p, Proposing, num, counted + {m}, counted + {m}).(nacks := if nack then nacks + [m] else nacks)
  {
  }

  lemma HearsOne(v: Variant, n: nat, p: nat, num: nat, ms: seq<Message>, j: nat, nack: bool)
    requires j < |ms| && MajorityOf(n, ms) && Counts(v, num, ms[j], nack)
    ensures AbsorbPrepareReply(v, n, Heard(p, num, ms[..j], nack), ms[j]) == Heard(p, num, ms[..j + 1], nack)
    ensures Heard(p, num, ms[..j + 1], nack).responses == j + 1
  {
    SetOfNext(ms, j);
    assert ms[..j + 1] == ms[..j] + [ms[j]];
    HearsNew(v, n, p, num, SetOf(ms[..j]), if nack then ms[..j] else [], ms[j], nack);
  }

  /** Tied NACKs: the first is as high as any. */
  lemma FirstIsHighest(v: Variant, num: nat, nacks: seq<Message>)
    requires forall m :: m in nacks ==> Counts(v, num, m, true)
    ensures nacks == [] || IsHighest(v, nacks, 0)
  {
    forall j | 0 <= j < |nacks|
      ensures Key(v, nacks[j]) == num
    {
      assert nacks[j] in nacks;
    }
  }

  /** One more reply: the proposer goes on, or decides when a majority is complete. */
  lemma AnswersOne(v: Variant, n: nat, p: nat, num: nat, ms: seq<Message>, j: nat, nack: bool)
    requires j < |ms| && MajorityOf(n, ms) && forall m :: m in ms ==> Counts(v, num, m, nack)
    ensures PickOk(v, AbsorbPrepareReply(v, n, Heard(p, num, ms[..j], nack), ms[j]), 0)
    ensures OnPrepareReply(v, n, Heard(p, num, ms[..j], nack), ms[j], 0)
         == if j + 1 < |ms| then Heard(p, num, ms[..j + 1], nack) else Decide(n, Heard(p, num, ms, nack), 0)
  {
    assert ms[j] in ms;
    HearsOne(v, n, p, num, ms, j, nack);
    if nack {
      FirstIsHighest(v, num, ms[..j + 1]);
    }
    assert j + 1 == |ms| ==> ms[..j + 1] == ms;
  }

  /** Server p is at its first j replies. */
  ghost predicate HasHeard(c: Config, x: Scene, p: nat, num: nat, ms: seq<Message>, j: nat, nack: bool) {
    && Plays(c, x) && p < c.n && j < |ms| && MajorityOf(c.n, ms)
    && x.state.proposers[p] == Heard(p, num, ms[..j], nack)
    && forall m :: m in ms ==> Counts(c.variant, num, m, nack) && Packet(p, m) in x.state.replies
  }

  lemma HearsNext(c: Config, x: Scene, p: nat, num: nat, ms: seq<Message>, j: nat, nack: bool) returns (y: Scene)
    requires HasHeard(c, x, p, num, ms, j, nack)
    ensures Plays(c, y)
    ensures y.state == x.state.(proposers := x.state.proposers[p :=
      if j + 1 < |ms| then Heard(p, num, ms[..j + 1], nack) else Decide(c.n, Heard(p, num, ms, nack), 0)])
  {
    AnswersOne(c.variant, c.n, p, num, ms, j, nack);
    assert ms[j] in ms;
    y := Play(c, x, ProposerReceives(p, ms[j], 0));
  }

  lemma {:induction false} HearsRest(c: Config, x: Scene, p: nat, num: nat, ms: seq<Message>, j: nat, nack: bool)
    returns (y: Scene)
    requires HasHeard(c, x, p, num, ms, j, nack)
    ensures Plays(c, y)
    ensures y.state == x.state.(proposers := x.state.proposers[p := Decide(c.n, Heard(p, num, ms, nack), 0)])
    decreases |ms| - j
  {
    y := HearsNext(c, x, p, num, ms, j, nack);
    if j + 1 < |ms| {
      var z := y;
      y := HearsRest(c, z, p, num, ms, j + 1, nack);
    }
  }

  /** A majority answered: server p decides, the first reply being its pick. */
  lemma HearsMajority(c: Config, x: Scene, p: nat, num: nat, ms: seq<Message>, nack: bool) returns (y: Scene)
    requires Plays(c, x) && p < c.n && x.state.proposers[p] == At(p, Proposing, num, {}, {})
    requires MajorityOf(c.n, ms)
    requires forall m :: m in ms ==> Counts(c.variant, num, m, nack) && Packet(p, m) in x.state.replies
    ensures Plays(c, y)
    ensures y.state == x.state.(proposers := x.state.proposers[p := Decide(c.n, Heard(p, num, ms, nack), 0)])
  {
    assert ms[..0] == [] && SetOf([]) == {};
    y := HearsRest(c, x, p, num, ms, 0, nack);
  }

  /** A majority acknowledged: server p offers its own value. */
  lemma Wins(c: Config, x: Scene, p: nat, num: nat, ms: seq<Message>) returns (y: Scene)
    requires Plays(c, x) && p < c.n && x.state.proposers[p] == At(p, Proposing, num, {}, {})
    requires MajorityOf(c.n, ms)
    requires forall m :: m in ms ==> Counts(c.variant, num, m, false) && Packet(p, m) in x.state.replies
    ensures Plays(c, y)
    ensures y.state == x.state.(proposers := x.state.proposers[p := At(p, Accepting, num, {}, SetOf(ms))],
                                requests := x.state.requests + {Offer(num, p, p)})
  {
    var z := HearsMajority(c, x, p, num, ms, false);
    var q := At(p, Accept, num, SetOf(ms), SetOf(ms));
    assert Decide(c.n, Heard(p, num, ms, false), 0) == q;
    assert z.state.proposers[p] == q;
    y := Play(c, z, SendsAccept(p));
    assert y.state.proposers == x.state.proposers[p := At(p, Accepting, num, {}, SetOf(ms))];
  }

  /** A majority of tied NACKs: server p offers the value of the first. */
  lemma Yields(c: Config, x: Scene, p: nat, num: nat, wish: nat, ms: seq<Message>) returns (y: Scene)
    requires Plays(c, x) && p < c.n && x.state.proposers[p] == At(p, Proposing, num, {}, {})
    requires MajorityOf(c.n, ms) && ValueOf(ms[0]) == Wish(wish) && wish != p
    requires forall m :: m in ms ==> Counts(c.variant, num, m, true) && Packet(p, m) in x.state.replies
    ensures Plays(c, y)
    ensures y.state.acceptors == x.state.acceptors && y.state.replies == x.state.replies
    ensures y.state.requests == x.state.requests + {Offer(num, wish, p)}
  {
    var z := HearsMajority(c, x, p, num, ms, true);
    var q := Heard(p, num, ms, true).(learnt := Wish(wish), phase := Accept);
    assert Decide(c.n, Heard(p, num, ms, true), 0) == q;
    assert z.state.proposers[p] == q;
    y := Play(c, z, SendsAccept(p));
  }

  // ---------------------------------------------------------------------
  // Votes
  // ---------------------------------------------------------------------

  /** All servers but p. */
  function Others(n: nat, p: nat): set<nat> {
    if n == 0 then {} else Others(n - 1, p) + (if n - 1 == p then {} else {n - 1})
  }

  lemma {:induction false} OthersCount(n: nat, p: nat)
    ensures forall a: nat :: a in Others(n, p) <==> a < n && a != p
    ensures |Others(n, p)| == if p < n then n - 1 else n
  {
    if n > 0 {
      OthersCount(n - 1, p);
    }
  }

  /** From three servers on, the votes of all others are a majority. */
  lemma OthersElect(c: Config, s: System, num: nat, wish: nat, p: nat)
    requires c.n >= 3 && p < c.n && Owner(c.n, num) == p
    requires forall a :: 0 <= a < c.n && a != p ==> Vote(num, wish, p, a) in s.replies
    ensures Chosen(c, s, 0, Wish(wish))
  {
    OthersCount(c.n, p);
    forall a | a in Others(c.n, p)
      ensures Voted(c.n, s.replies, a, 0, num, Wish(wish))
    {
      assert Vote(num, wish, p, a) in s.replies;
    }
    assert Elects(c, s, 0, num, Wish(wish), Others(c.n, p));
    assert ChosenAt(c, s, 0, num, Wish(wish));
  }
}
