/** The acceptor process: one entry per instance, and a history of seen messages. */
module Acceptors {
  import opened Options
  import opened Messages

  /** Highest prepared number, and the number, payload and client last accepted. */
  datatype Entry = Entry(prep: nat, accp: int, accv: Payload, cid: Option<int>)

  type History = map<nat, Entry>

  datatype Acceptor = Acceptor(id: nat, history: History, seen: set<Message>)

  function Accepted(e: Entry): Value {
    Value(e.accv, e.cid)
  }

  /** The two request handlers, without duplicate suppression. */
  function Respond(id: nat, h: History, m: Message): (r: (History, Option<Message>))
    requires IsRequest(m)
  {
    if m.kind.PREPARE? then
      if m.instance in h then
        var e := h[m.instance];
        if m.proposal > e.prep then
          var kind := if e.accp != NO_PROPOSAL then PREPARE_NACK else PREPARE_ACK;
          (h[m.instance := e.(prep := m.proposal)],
           Some(Message(kind, m.proposal, m.instance, e.accv, id, e.cid, e.accp)))
        else
          (h, None)
      else
        var payload := if m.client.Some? then ClientId(m.client.value) else NoValue;
        (h[m.instance := Entry(m.proposal, NO_PROPOSAL, NoValue, None)],
         Some(Message(PREPARE_ACK, m.proposal, m.instance, payload, id, Some(NO_CLIENT), NO_PROPOSAL)))
    else
      if m.instance in h && m.proposal < h[m.instance].prep then
        (h, None)
      else
        (h[m.instance := Entry(m.proposal, m.proposal, m.payload, m.client)],
         Some(AcceptAckMsg(m.proposal, m.instance, ValueOf(m), id)))
  }

  /** One turn of the acceptor loop: a message with a known signature is skipped. */
  function Receive(a: Acceptor, m: Message): (r: (Acceptor, Option<Message>))
    requires IsRequest(m)
  {
    if m in a.seen then (a, None)
    else
      var (h, reply) := Respond(a.id, a.history, m);
      (Acceptor(a.id, h, a.seen + {m}), reply)
  }

  /** The acceptor loop over a sequence of queued messages. */
  function ReceiveAll(a: Acceptor, ms: seq<Message>): Acceptor
    requires forall m :: m in ms ==> IsRequest(m)
  {
    if ms == [] then a
    else Receive(ReceiveAll(a, ms[..|ms| - 1]), ms[|ms| - 1]).0
  }

  /** What that loop sends back, in order. */
  function RepliesTo(a: Acceptor, ms: seq<Message>): seq<Message>
    requires forall m :: m in ms ==> IsRequest(m)
  {
    if ms == [] then []
    else
      var before, last := ms[..|ms| - 1], ms[|ms| - 1];
      var reply := Receive(ReceiveAll(a, before), last).1;
      RepliesTo(a, before) + (if reply.Some? then [reply.value] else [])
  }

  /** The same loop without msg_history. */
  function RespondAll(id: nat, ms: seq<Message>): History
    requires forall m :: m in ms ==> IsRequest(m)
  {
    if ms == [] then map[]
    else Respond(id, RespondAll(id, ms[..|ms| - 1]), ms[|ms| - 1]).0
  }

  /** No two different values are offered under one proposal number of one instance. */
  ghost predicate OneValuePerProposal(ms: set<Message>) {
    forall m1, m2 ::
      m1 in ms && m2 in ms && m1.kind.ACCEPT? && m2.kind.ACCEPT?
      && m1.proposal == m2.proposal && m1.instance == m2.instance
      ==> ValueOf(m1) == ValueOf(m2)
  }

  /** What an entry still shows of a request that was handled before. */
  ghost predicate Remembers(h: History, m: Message) {
    && m.instance in h
    && h[m.instance].prep >= m.proposal
    && (m.kind.ACCEPT? ==>
          || h[m.instance].prep > m.proposal
          || (h[m.instance].accp == m.proposal && Accepted(h[m.instance]) == ValueOf(m)))
  }

  lemma RespondRemembers(id: nat, h: History, m: Message, old_: Message)
    requires IsRequest(m) && IsRequest(old_)
    requires old_ == m || Remembers(h, old_)
    requires OneValuePerProposal({m, old_})
    ensures Remembers(Respond(id, h, m).0, old_)
  {
  }

  /** The entry of a handled request does not change when it is handled again. */
  lemma RespondTwice(id: nat, h: History, m: Message)
    requires IsRequest(m) && Remembers(h, m)
    ensures Respond(id, h, m).0 == h
  {
    var e := h[m.instance];
    assert h[m.instance := e] == h;
  }

  lemma {:induction false} HandledAreRemembered(id: nat, ms: seq<Message>, m: Message)
    requires forall x :: x in ms ==> IsRequest(x)
    requires OneValuePerProposal(set x | x in ms)
    requires m in ms
    ensures Remembers(RespondAll(id, ms), m)
  {
    var prefix, last := ms[..|ms| - 1], ms[|ms| - 1];
    assert ms == prefix + [last];
    assert OneValuePerProposal({last, m});
    if m != last {
      HandledAreRemembered(id, prefix, m);
    }
    RespondRemembers(id, RespondAll(id, prefix), last, m);
  }

  /** Suppressing duplicates does not change what an acceptor has promised and
      accepted, as long as one proposal number carries one value. */
  lemma {:induction false} SuppressionIsTransparent(id: nat, ms: seq<Message>)
    requires forall m :: m in ms ==> IsRequest(m)
    requires OneValuePerProposal(set m | m in ms)
    ensures ReceiveAll(Acceptor(id, map[], {}), ms)
         == Acceptor(id, RespondAll(id, ms), set m | m in ms)
  {
    if ms != [] {
      var prefix, last := ms[..|ms| - 1], ms[|ms| - 1];
      assert ms == prefix + [last];
      SuppressionIsTransparent(id, prefix);
      var before := ReceiveAll(Acceptor(id, map[], {}), prefix);
      assert (set m | m in ms) == before.seen + {last};
      if last in before.seen {
        HandledAreRemembered(id, prefix, last);
        RespondTwice(id, RespondAll(id, prefix), last);
      }
    }
  }

  /** With two values under one number the order of duplicates would matter. */
  lemma SuppressionNeedsOneValue()
    ensures exists ms: seq<Message> ::
      && (forall m :: m in ms ==> IsRequest(m))
      && ReceiveAll(Acceptor(0, map[], {}), ms).history != RespondAll(0, ms)
  {
    var v, w := Value(ClientId(0), Some(0)), Value(ClientId(1), Some(1));
    var m1, m2 := AcceptMsg(1, 0, v, 1), AcceptMsg(1, 0, w, 1);
    var one, two, three := [m1], [m1, m2], [m1, m2, m1];
    assert one[..0] == [] && two[..1] == one && three[..2] == two;
    var a0 := Acceptor(0, map[], {});
    assert ReceiveAll(a0, one) == Receive(a0, m1).0;
    assert ReceiveAll(a0, two) == Receive(Receive(a0, m1).0, m2).0;
    assert ReceiveAll(a0, three) == ReceiveAll(a0, two);
    assert ReceiveAll(a0, three).history[0].cid == Some(1);
    assert RespondAll(0, one) == Respond(0, map[], m1).0;
    assert RespondAll(0, two) == Respond(0, RespondAll(0, one), m2).0;
    assert RespondAll(0, three) == Respond(0, RespondAll(0, two), m1).0;
    assert RespondAll(0, three)[0].cid == Some(0);
  }

  /** The acceptor process with its dictionary and its message history. */
  class AcceptorProcess {
    const id: nat
    var acceptHistory: map<nat, Entry>
    var msgHistory: set<Message>

    function State(): Acceptor
      reads this
    {
      Acceptor(id, acceptHistory, msgHistory)
    }

    constructor (id: nat)
      ensures State() == Acceptor(id, map[], {})
    {
      this.id := id;
      acceptHistory := map[];
      msgHistory := {};
    }

    method Handle(msg: Message) returns (reply: Option<Message>)
      requires IsRequest(msg)
      modifies this
      ensures (State(), reply) == Receive(old(State()), msg)
    {
      reply := None;
      if msg in msgHistory {
        return;
      }
      msgHistory := msgHistory + {msg};
      match msg.kind {
        case PREPARE =>
          if msg.instance in acceptHistory {
            var e := acceptHistory[msg.instance];
            if msg.proposal > e.prep {
              var kind := PREPARE_ACK;
              if e.accp != NO_PROPOSAL {
                kind := PREPARE_NACK;
              }
              reply := Some(Message(kind, msg.proposal, msg.instance, e.accv, id, e.cid, e.accp));
              acceptHistory := acceptHistory[msg.instance := Entry(msg.proposal, e.accp, e.accv, e.cid)];
            }
          } else {
            var payload := NoValue;
            if msg.client.Some? {
              payload := ClientId(msg.client.value);
            }
            reply := Some(Message(PREPARE_ACK, msg.proposal, msg.instance, payload, id, Some(NO_CLIENT), NO_PROPOSAL));
            acceptHistory := acceptHistory[msg.instance := Entry(msg.proposal, NO_PROPOSAL, NoValue, None)];
          }
        case ACCEPT =>
          if msg.instance in acceptHistory {
            if msg.proposal >= acceptHistory[msg.instance].prep {
              reply := Some(AcceptAckMsg(msg.proposal, msg.instance, ValueOf(msg), id));
              acceptHistory := acceptHistory[msg.instance := Entry(msg.proposal, msg.proposal, msg.payload,
                                                                   msg.client)];
            }
          } else {
            reply := Some(AcceptAckMsg(msg.proposal, msg.instance, ValueOf(msg), id));
            acceptHistory := acceptHistory[msg.instance := Entry(msg.proposal, msg.proposal, msg.payload, msg.client)];
          }
        case _ =>
          assert false;
      }
    }

    /** The processing loop over the messages queued so far. */
    method HandleAll(queue: seq<Message>) returns (replies: seq<Message>)
      requires forall m :: m in queue ==> IsRequest(m)
      modifies this
      ensures State() == ReceiveAll(old(State()), queue)
      ensures replies == RepliesTo(old(State()), queue)
    {
      replies := [];
      for i := 0 to |queue|
        invariant State() == ReceiveAll(old(State()), queue[..i])
        invariant replies == RepliesTo(old(State()), queue[..i])
      {
        assert queue[..i + 1][..i] == queue[..i];
        var reply := Handle(queue[i]);
        if reply.Some? {
          replies := replies + [reply.value];
        }
      }
      assert queue[..|queue|] == queue;
    }
  }
}
