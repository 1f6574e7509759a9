/** What the acceptors of a cluster hear, and what they make of it. */
module Deliveries {
  import opened Messages
  import opened Acceptors
  import opened Cluster
  import opened Ballots
  import opened BallotSteps

  /** The requests that acceptor a has taken from its queue, duplicates included. */
  function Delivered(r: Run, a: nat): seq<Message> {
    match r
    case Start => []
    case Then(before, act) =>
      Delivered(before, a) + (if act.AcceptorReceives? && act.a == a then [act.request] else [])
  }

  lemma {:induction false} DeliveredWereSent(c: Config, r: Run, a: nat)
    requires c.n > 0 && Valid(c, r) && a < c.n
    ensures forall m :: m in Delivered(r, a) ==> m in Final(c, r).requests && IsRequest(m)
  {
    match r
    case Start =>
    case Then(before, act) =>
      DeliveredWereSent(c, before, a);
      BallotInvAlways(c, before);
      ShapeStep(c, Final(c, before), act);
  }

  lemma ReceiveOneMore(a: Acceptor, ms: seq<Message>, m: Message)
    requires IsRequest(m) && forall x :: x in ms ==> IsRequest(x)
    ensures ReceiveAll(a, ms + [m]) == Receive(ReceiveAll(a, ms), m).0
  {
    assert (ms + [m])[..|ms|] == ms;
  }

  lemma DeliveryStep(c: Config, s: System, act: Action, a: nat)
    requires Enabled(c, s, act) && a < |s.acceptors|
    ensures a < |Apply(c, s, act).acceptors|
    ensures Apply(c, s, act).acceptors[a]
         == if act.AcceptorReceives? && act.a == a then Receive(s.acceptors[a], act.request).0 else s.acceptors[a]
  {
  }

  /** The acceptor of a run is the acceptor loop on what was delivered to it. */
  lemma {:induction false} AcceptorIsItsDeliveries(c: Config, r: Run, a: nat)
    requires c.n > 0 && Valid(c, r) && a < c.n
    ensures forall m :: m in Delivered(r, a) ==> IsRequest(m)
    ensures a < |Final(c, r).acceptors|
    ensures Final(c, r).acceptors[a] == ReceiveAll(Acceptor(a, map[], {}), Delivered(r, a))
  {
    DeliveredWereSent(c, r, a);
    match r
    case Start =>
    case Then(before, act) =>
      AcceptorIsItsDeliveries(c, before, a);
      DeliveryStep(c, Final(c, before), act, a);
      if act.AcceptorReceives? && act.a == a {
        ReceiveOneMore(Acceptor(a, map[], {}), Delivered(before, a), act.request);
      } else {
        assert Delivered(r, a) == Delivered(before, a);
      }
  }

  /** An acceptor of a run: its history is that of the loop without duplicate suppression,
      and its message history is what was delivered. */
  lemma AcceptorHoldsDeliveries(c: Config, r: Run, a: nat)
    requires c.n > 0 && Valid(c, r) && a < c.n
    ensures forall m :: m in Delivered(r, a) ==> IsRequest(m)
    ensures a < |Final(c, r).acceptors|
    ensures Final(c, r).acceptors[a] == Acceptor(a, RespondAll(a, Delivered(r, a)), set m | m in Delivered(r, a))
  {
    AcceptorIsItsDeliveries(c, r, a);
    DeliveredWereSent(c, r, a);
    BallotInvAlways(c, r);
    assert OneValuePerProposal(set m | m in Delivered(r, a)) by {
      assert OneRequestPerNumber(Final(c, r).requests);
    }
    SuppressionIsTransparent(a, Delivered(r, a));
  }

  /** In every run an acceptor has promised and accepted what it would have without its
      message history, whatever was duplicated or reordered on the way to it. */
  lemma {:induction false} DuplicatesNeverMatter(c: Config, r: Run, a: nat)
    requires c.n > 0 && Valid(c, r) && a < c.n
    ensures forall m :: m in Delivered(r, a) ==> IsRequest(m)
    ensures a < |Final(c, r).acceptors|
    ensures Final(c, r).acceptors[a].history == RespondAll(a, Delivered(r, a))
  {
    AcceptorHoldsDeliveries(c, r, a);
  }
}
