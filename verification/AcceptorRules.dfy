/** What an acceptor remembers and answers, told by the requests it was handed. */
module AcceptorRules {
  import opened Options
  import opened Messages
  import opened Acceptors
  import opened Cluster
  import opened Ballots
  import opened BallotSteps
  import opened Deliveries

  // ---------------------------------------------------------------------
  // The reference: positions in a sequence of requests
  // ---------------------------------------------------------------------

  predicate Requests(ms: seq<Message>) {
    forall m :: m in ms ==> IsRequest(m)
  }

  /** Request k is taken: a PREPARE whose number tops all earlier ones of its instance, or
      an ACCEPT whose number is topped by none of them. */
  predicate Takes(ms: seq<Message>, k: nat) {
    && k < |ms|
    && forall j :: 0 <= j < k && ms[j].instance == ms[k].instance ==>
         ms[j].proposal < ms[k].proposal || (ms[k].kind.ACCEPT? && ms[j].proposal == ms[k].proposal)
  }

  /** The last ACCEPT of instance i taken among the first k requests. */
  function LastTaken(ms: seq<Message>, k: nat, i: nat): (r: Option<nat>)
    requires k <= |ms|
    ensures r.Some? ==> r.value < k && ms[r.value].kind.ACCEPT? && ms[r.value].instance == i && Takes(ms, r.value)
    ensures forall j :: 0 <= j < k && (r.Some? ==> r.value < j) && ms[j].instance == i && ms[j].kind.ACCEPT? ==>
      !Takes(ms, j)
  {
    if k == 0 then None
    else if ms[k - 1].kind.ACCEPT? && ms[k - 1].instance == i && Takes(ms, k - 1) then Some(k - 1)
    else LastTaken(ms, k - 1, i)
  }

  predicate Known(ms: seq<Message>, k: nat, i: nat)
    requires k <= |ms|
  {
    exists j :: 0 <= j < k && ms[j].instance == i
  }

  /** The highest number that instance i has seen in the first k requests. */
  predicate IsTop(ms: seq<Message>, k: nat, i: nat, top: nat)
    requires k <= |ms|
  {
    && (exists j :: 0 <= j < k && ms[j].instance == i && ms[j].proposal == top)
    && (forall j :: 0 <= j < k && ms[j].instance == i ==> ms[j].proposal <= top)
  }

  /** The entry holds the highest number seen and the last ACCEPT taken, if there is one. */
  predicate EntryIs(ms: seq<Message>, k: nat, i: nat, e: Entry)
    requires k <= |ms|
  {
    && IsTop(ms, k, i, e.prep)
    && match LastTaken(ms, k, i)
       case None => e.accp == -1 && Accepted(e) == Value(NoValue, None)
       case Some(j) => e.accp == ms[j].proposal && Accepted(e) == ValueOf(ms[j])
  }

  ghost predicate HistoryIs(ms: seq<Message>, k: nat, h: History)
    requires k <= |ms|
  {
    forall i: nat :: (i in h <==> Known(ms, k, i)) && (i in h ==> EntryIs(ms, k, i, h[i]))
  }

  /** The reply to request k, if it is taken. */
  function ReplyTo(id: nat, ms: seq<Message>, k: nat): Message
    requires k < |ms|
  {
    var m := ms[k];
    if m.kind.ACCEPT? then
      Message(ACCEPT_ACK, m.proposal, m.instance, m.payload, id, m.client, -1)
    else if !Known(ms, k, m.instance) then
      Message(PREPARE_ACK, m.proposal, m.instance,
              if m.client.Some? then ClientId(m.client.value) else NoValue, id, Some(-1), -1)
    else
      match LastTaken(ms, k, m.instance)
      case None => Message(PREPARE_ACK, m.proposal, m.instance, NoValue, id, None, -1)
      case Some(j) =>
        Message(PREPARE_NACK, m.proposal, m.instance, ms[j].payload, id, ms[j].client, ms[j].proposal)
  }

  // ---------------------------------------------------------------------
  // The handlers meet the reference
  // ---------------------------------------------------------------------

  lemma TakesByTop(ms: seq<Message>, k: nat, top: nat)
    requires k < |ms| && IsRequest(ms[k]) && IsTop(ms, k, ms[k].instance, top)
    ensures Takes(ms, k) <==> top < ms[k].proposal || (ms[k].kind.ACCEPT? && top == ms[k].proposal)
  {
    var j :| 0 <= j < k && ms[j].instance == ms[k].instance && ms[j].proposal == top;
  }

  lemma TakesFirst(ms: seq<Message>, k: nat)
    requires k < |ms| && !Known(ms, k, ms[k].instance)
    ensures Takes(ms, k)
  {
  }

  lemma TopStep(ms: seq<Message>, k: nat, i: nat, top: nat)
    requires k < |ms| && IsTop(ms, k, i, top)
    ensures IsTop(ms, k + 1, i, if ms[k].instance == i && ms[k].proposal > top then ms[k].proposal else top)
  {
    var j :| 0 <= j < k && ms[j].instance == i && ms[j].proposal == top;
  }

  lemma EntryElsewhere(ms: seq<Message>, k: nat, i: nat)
    requires k < |ms| && ms[k].instance != i
    ensures Known(ms, k + 1, i) == Known(ms, k, i)
    ensures LastTaken(ms, k + 1, i) == LastTaken(ms, k, i)
    ensures forall top: nat :: IsTop(ms, k, i, top) ==> IsTop(ms, k + 1, i, top)
  {
    forall top: nat | IsTop(ms, k, i, top)
      ensures IsTop(ms, k + 1, i, top)
    {
      TopStep(ms, k, i, top);
    }
  }

  lemma LastTakenNone(ms: seq<Message>, k: nat, i: nat)
    requires k <= |ms| && !Known(ms, k, i)
    ensures LastTaken(ms, k, i) == None
  {
  }

  /** One request: the reply, and the entry of its instance. */
  lemma RespondByRule(id: nat, ms: seq<Message>, k: nat, h: History)
    requires k < |ms| && IsRequest(ms[k]) && HistoryIs(ms, k, h)
    ensures var (g, reply) := Respond(id, h, ms[k]);
      && reply == (if Takes(ms, k) then Some(ReplyTo(id, ms, k)) else None)
      && ms[k].instance in g && EntryIs(ms, k + 1, ms[k].instance, g[ms[k].instance])
  {
    var i := ms[k].instance;
    if i in h {
      TakesByTop(ms, k, h[i].prep);
      TopStep(ms, k, i, h[i].prep);
    } else {
      TakesFirst(ms, k);
      LastTakenNone(ms, k, i);
      assert IsTop(ms, k + 1, i, ms[k].proposal);
    }
  }

  lemma RespondKeepsHistory(id: nat, ms: seq<Message>, k: nat, h: History)
    requires k < |ms| && IsRequest(ms[k]) && HistoryIs(ms, k, h)
    ensures HistoryIs(ms, k + 1, Respond(id, h, ms[k]).0)
  {
    RespondByRule(id, ms, k, h);
    var g := Respond(id, h, ms[k]).0;
    forall i: nat
      ensures (i in g <==> Known(ms, k + 1, i)) && (i in g ==> EntryIs(ms, k + 1, i, g[i]))
    {
      if i != ms[k].instance {
        EntryElsewhere(ms, k, i);
      } else {
        assert ms[k].instance == i;
      }
    }
  }

  /** After any sequence of requests an acceptor knows the instances it was asked about,
      and for each the highest number seen and the last ACCEPT that no earlier request
      topped. */
  lemma {:induction false} HistoryExactly(id: nat, ms: seq<Message>, k: nat)
    requires Requests(ms) && k <= |ms|
    ensures Requests(ms[..k]) && HistoryIs(ms, k, RespondAll(id, ms[..k]))
  {
    if k == 0 {
      assert ms[..0] == [];
    } else {
      HistoryExactly(id, ms, k - 1);
      assert ms[..k][..k - 1] == ms[..k - 1] && ms[..k][k - 1] == ms[k - 1];
      RespondKeepsHistory(id, ms, k - 1, RespondAll(id, ms[..k - 1]));
    }
  }

  /** Any request is answered if and only if it is taken, and the answer tells whether the
      instance is new and what was last accepted. */
  lemma ReplyExactly(id: nat, ms: seq<Message>, k: nat)
    requires Requests(ms) && k < |ms|
    ensures Requests(ms[..k])
    ensures Respond(id, RespondAll(id, ms[..k]), ms[k]).1 == if Takes(ms, k) then Some(ReplyTo(id, ms, k)) else None
  {
    HistoryExactly(id, ms, k);
    RespondByRule(id, ms, k, RespondAll(id, ms[..k]));
  }

  /** The answers to the first k requests, in order: one for each request that is taken
      and was not there before. */
  function AnswersInOrder(id: nat, ms: seq<Message>, k: nat): seq<Message>
    requires k <= |ms|
  {
    if k == 0 then []
    else
      AnswersInOrder(id, ms, k - 1)
      + (if Takes(ms, k - 1) && ms[k - 1] !in ms[..k - 1] then [ReplyTo(id, ms, k - 1)] else [])
  }

  /** What the acceptor loop sends back for a queue, in order. */
  lemma {:induction false} QueueRepliesExactly(id: nat, ms: seq<Message>, k: nat)
    requires Requests(ms) && OneValuePerProposal(set m | m in ms) && k <= |ms|
    ensures Requests(ms[..k]) && RepliesTo(Acceptor(id, map[], {}), ms[..k]) == AnswersInOrder(id, ms, k)
  {
    if k > 0 {
      var before := ms[..k - 1];
      QueueRepliesExactly(id, ms, k - 1);
      assert ms[..k][..k - 1] == before && ms[..k][k - 1] == ms[k - 1];
      SuppressionIsTransparent(id, before);
      ReplyExactly(id, ms, k - 1);
    }
  }

  // ---------------------------------------------------------------------
  // Every reply of every run
  // ---------------------------------------------------------------------

  /** The packet is the answer of acceptor a to request k of those handed to it. */
  predicate Answered(a: nat, ms: seq<Message>, k: nat, packet: Packet) {
    k < |ms| && Takes(ms, k) && packet == Packet(ms[k].origin, ReplyTo(a, ms, k))
  }

  ghost predicate RepliesBy(replies: set<Packet>, a: nat, ms: seq<Message>) {
    forall packet: Packet :: packet.msg.origin == a ==> (packet in replies <==> exists k :: Answered(a, ms, k, packet))
  }

  lemma TakesStays(ms: seq<Message>, m: Message, k: nat)
    requires k < |ms|
    ensures Takes(ms + [m], k) == Takes(ms, k)
    ensures forall i: nat :: Known(ms + [m], k, i) == Known(ms, k, i)
  {
    var all := ms + [m];
    assert forall j :: 0 <= j < |ms| ==> all[j] == ms[j];
    if Takes(all, k) {
      forall j | 0 <= j < k && ms[j].instance == ms[k].instance
        ensures ms[j].proposal < ms[k].proposal || (ms[k].kind.ACCEPT? && ms[j].proposal == ms[k].proposal)
      {
        assert all[j] == ms[j];
      }
    }
    forall i: nat | Known(ms, k, i)
      ensures Known(all, k, i)
    {
      var j :| 0 <= j < k && ms[j].instance == i;
      assert all[j].instance == i;
    }
  }

  lemma {:induction false} LastTakenStays(ms: seq<Message>, m: Message, k: nat, i: nat)
    requires k <= |ms|
    ensures LastTaken(ms + [m], k, i) == LastTaken(ms, k, i)
  {
    if k > 0 {
      LastTakenStays(ms, m, k - 1, i);
      TakesStays(ms, m, k - 1);
    }
  }

  lemma AnsweredStays(a: nat, ms: seq<Message>, m: Message, k: nat, packet: Packet)
    requires k < |ms|
    ensures Answered(a, ms + [m], k, packet) <==> Answered(a, ms, k, packet)
  {
    LastTakenStays(ms, m, k, ms[k].instance);
    TakesStays(ms, m, k);
  }

  /** A request that was taken before has been answered in the same way. */
  lemma TakenAgain(a: nat, ms: seq<Message>, m: Message)
    requires IsRequest(m) && m in ms && Takes(ms + [m], |ms|)
    ensures exists k :: 0 <= k < |ms| && Answered(a, ms + [m], k, Packet(m.origin, ReplyTo(a, ms + [m], |ms|)))
  {
    var all := ms + [m];
    var k: nat :| k < |ms| && ms[k] == m;
    assert all[k].instance == m.instance && all[k].proposal == m.proposal;
    assert Takes(all, k);
    assert Answered(a, all, k, Packet(m.origin, ReplyTo(a, all, |ms|)));
  }

  /** One delivery, with the duplicate test. */
  lemma ReceiveByRule(a: nat, ms: seq<Message>, m: Message, b: Acceptor, replies: set<Packet>)
    requires Requests(ms) && IsRequest(m) && RepliesBy(replies, a, ms)
    requires b == Acceptor(a, RespondAll(a, ms), set x | x in ms)
    ensures var reply := Receive(b, m).1;
      RepliesBy(replies + (if reply.Some? then {Packet(m.origin, reply.value)} else {}), a, ms + [m])
  {
    var all, reply := ms + [m], Receive(b, m).1;
    var after := replies + (if reply.Some? then {Packet(m.origin, reply.value)} else {});
    assert all[..|ms|] == ms;
    ReplyExactly(a, all, |ms|);
    var last := Packet(m.origin, ReplyTo(a, all, |ms|));
    forall packet: Packet | packet.msg.origin == a
      ensures packet in after <==> exists k :: Answered(a, all, k, packet)
    {
      if k: nat :| Answered(a, all, k, packet) {
        if k < |ms| {
          AnsweredStays(a, ms, m, k, packet);
        } else if m in ms {
          TakenAgain(a, ms, m);
          var j :| 0 <= j < |ms| && Answered(a, all, j, packet);
          AnsweredStays(a, ms, m, j, packet);
        }
      }
      if packet in replies {
        var k: nat :| Answered(a, ms, k, packet);
        AnsweredStays(a, ms, m, k, packet);
      } else if packet in after {
        assert Answered(a, all, |ms|, packet);
      }
    }
  }

  /** The replies of other acceptors do not matter. */
  lemma OtherReplies(replies: set<Packet>, more: set<Packet>, a: nat, ms: seq<Message>)
    requires RepliesBy(replies, a, ms) && forall packet :: packet in more ==> packet.msg.origin != a
    ensures RepliesBy(replies + more, a, ms)
  {
  }

  /** What a step sends to proposers. */
  function NewReplies(s: System, act: Action): set<Packet> {
    if act.AcceptorReceives? && act.a < |s.acceptors| && IsRequest(act.request) then
      var reply := Receive(s.acceptors[act.a], act.request).1;
      if reply.Some? then {Packet(act.request.origin, reply.value)} else {}
    else {}
  }

  lemma NewRepliesSent(c: Config, s: System, act: Action)
    requires Shape(c, s) && Enabled(c, s, act)
    ensures Apply(c, s, act).replies == s.replies + NewReplies(s, act)
    ensures forall packet :: packet in NewReplies(s, act) ==> act.AcceptorReceives? && packet.msg.origin == act.a
  {
  }

  /** In every run the replies sent by an acceptor are exactly the answers to the requests
      it has taken, however often and in whatever order requests were delivered. */
  lemma {:induction false} RepliesExactly(c: Config, r: Run, a: nat)
    requires c.n > 0 && Valid(c, r) && a < c.n
    ensures RepliesBy(Final(c, r).replies, a, Delivered(r, a))
  {
    match r
    case Start =>
    case Then(before, act) =>
      RepliesExactly(c, before, a);
      BallotInvAlways(c, before);
      var s := Final(c, before);
      NewRepliesSent(c, s, act);
      if act.AcceptorReceives? && act.a == a {
        AcceptorHoldsDeliveries(c, before, a);
        ReceiveByRule(a, Delivered(before, a), act.request, s.acceptors[a], s.replies);
      } else {
        assert Delivered(r, a) == Delivered(before, a);
        OtherReplies(s.replies, NewReplies(s, act), a, Delivered(before, a));
      }
  }

  /** In every run the entries of an acceptor are what the requests delivered to it make
      of them. */
  lemma EntriesExactly(c: Config, r: Run, a: nat)
    requires c.n > 0 && Valid(c, r) && a < c.n
    ensures a < |Final(c, r).acceptors|
    ensures HistoryIs(Delivered(r, a), |Delivered(r, a)|, Final(c, r).acceptors[a].history)
  {
    AcceptorHoldsDeliveries(c, r, a);
    var ms := Delivered(r, a);
    HistoryExactly(a, ms, |ms|);
    assert ms[..|ms|] == ms;
  }
}
