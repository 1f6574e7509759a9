/** What happens to the bytes of one connection, from its request to its answer. */
module Connections {
  import opened Options
  import opened SlotTable
  import opened SlotMatching

  // ---------------------------------------------------------------------
  // From the bytes of a connection to its answer
  // ---------------------------------------------------------------------

  /** extract_url: the request up to its first newline. */
  function FirstLine(request: string): string {
    if request == [] || request[0] == '\n' then [] else [request[0]] + FirstLine(request[1..])
  }

  lemma {:induction false} FirstLineEnds(request: string)
    ensures var r := FirstLine(request);
      && '\n' !in r && |r| <= |request| && request[..|r|] == r
      && (if '\n' in request then |r| < |request| && request[|r|] == '\n' else r == request)
  {
    if request != [] && request[0] != '\n' {
      FirstLineEnds(request[1..]);
      assert request == [request[0]] + request[1..];
    }
  }

  lemma {:induction false} AbsorbIsFirstLine(path: string, bytes: string)
    ensures Absorb(path, bytes) == (path + FirstLine(bytes), '\n' in bytes)
    decreases |bytes|
  {
    if bytes == [] || bytes[0] == '\n' {
      assert path + FirstLine(bytes) == path;
    } else {
      AbsorbIsFirstLine(path + [bytes[0]], bytes[1..]);
      assert path + [bytes[0]] + FirstLine(bytes[1..]) == path + FirstLine(bytes);
      assert bytes == [bytes[0]] + bytes[1..];
    }
  }

  lemma {:induction false} FirstLineConcat(a: string, b: string)
    ensures FirstLine(a + b) == if '\n' in a then FirstLine(a) else a + FirstLine(b)
  {
    if a == [] {
      assert a + b == b && a + FirstLine(b) == FirstLine(b);
    } else {
      assert (a + b)[1..] == a[1..] + b && (a + b)[0] == a[0];
      assert a == [a[0]] + a[1..];
      if a[0] != '\n' {
        FirstLineConcat(a[1..], b);
        assert [a[0]] + (a[1..] + FirstLine(b)) == a + FirstLine(b);
      }
    }
  }

  /** Every byte that arrived on the connection now in slot i. */
  ghost function Stream(c: Setup, r: Trace, i: nat): string
    requires TraceValid(c, r)
  {
    match r
    case Begin => ""
    case Next(before, act) =>
      match act
      case Accept(_) => if FirstEmpty(Reached(c, before).slots, 2) == i then "" else Stream(c, before, i)
      case Arrives(j, bytes) => if i == j then Stream(c, before, i) + bytes else Stream(c, before, i)
      case _ => Stream(c, before, i)
  }

  /** The path of a live slot is the first line of its stream so far, and the slot
      receives for as long as that line is not complete. */
  ghost predicate Heard(slot: Slot, stream: string) {
    Live(slot) ==>
      && slot.path == FirstLine(stream)
      && (slot.state.INIT? || slot.state.RECV? <==> '\n' !in stream)
  }

  lemma ChunkHeard(s: Server, i: nat, stream: string, bytes: string)
    requires i < |s.slots| && s.slots[i].state.RECV? && Heard(s.slots[i], stream)
    ensures Heard(Receive(s, i, bytes).slots[i], stream + bytes)
  {
    AbsorbIsFirstLine(s.slots[i].path, bytes);
    FirstLineConcat(stream, bytes);
    FirstLineEnds(stream);
  }

  lemma HeardStep(c: Setup, r: Trace, act: Step, i: nat)
    requires c.Valid() && TraceValid(c, Next(r, act)) && ServerInv(c, Reached(c, r))
    requires i < c.capacity && Heard(Reached(c, r).slots[i], Stream(c, r, i))
    ensures |StepApply(c, Reached(c, r), act).slots| == c.capacity
    ensures Heard(StepApply(c, Reached(c, r), act).slots[i], Stream(c, Next(r, act), i))
  {
    var s := Reached(c, r);
    if act.Arrives? && act.i == i {
      ChunkHeard(s, i, Stream(c, r, i), act.bytes);
    } else if act.DispatchOne? {
      FrontResultHasSlot(c, s);
    }
  }

  /** However the bytes were cut into chunks, the path is the first line of the stream,
      and the slot stops receiving exactly when that line is complete. */
  lemma {:induction false} PathIsFirstLine(c: Setup, r: Trace, i: nat)
    requires c.Valid() && TraceValid(c, r) && i < c.capacity
    ensures |Reached(c, r).slots| == c.capacity
    ensures Heard(Reached(c, r).slots[i], Stream(c, r, i))
  {
    match r
    case Begin =>
    case Next(before, act) =>
      PathIsFirstLine(c, before, i);
      ServerInvAlways(c, before);
      HeardStep(c, before, act, i);
  }

  /** The slot that sends has its own descriptor, and the result that reading the first
      line of its own connection's bytes gave: answers are never crossed. */
  lemma AnswersAreForTheRequest(c: Setup, r: Trace, i: nat)
    requires c.Valid() && TraceValid(c, r) && StepEnabled(c, Reached(c, r), Sends(i, 0))
    ensures var slot := Reached(c, r).slots[i];
      && slot.send.fd == slot.fd
      && FirstLine(Stream(c, r, i)) in c.files
      && slot.send.buffer == Some(c.files[FirstLine(Stream(c, r, i))])
  {
    ServerInvAlways(c, r);
    assert |Reached(c, r).slots| == c.capacity;
    PathIsFirstLine(c, r, i);
  }

  // ---------------------------------------------------------------------
  // How much of a file goes out
  // ---------------------------------------------------------------------

  /** The number of bytes that went out on the connection that has, or last had, slot i. */
  ghost function Outgoing(c: Setup, r: Trace, i: nat): int
    requires TraceValid(c, r)
  {
    match r
    case Begin => 0
    case Next(before, act) =>
      match act
      case Accept(_) => if FirstEmpty(Reached(c, before).slots, 2) == i then 0 else Outgoing(c, before, i)
      case Sends(j, sent) => if i == j && sent >= 0 then Outgoing(c, before, i) + sent else Outgoing(c, before, i)
      case _ => Outgoing(c, before, i)
  }

  /** Nothing went out on a live connection, and never more than a pointer's size. */
  ghost predicate SentOnce(c: Setup, slot: Slot, bytes: int) {
    0 <= bytes <= c.pointerSize && (Live(slot) ==> bytes == 0)
  }

  /** A slot comes to life only when it takes a connection, and a send that succeeds
      ends its life. */
  lemma LifeOfSlot(c: Setup, s: Server, act: Step, i: nat)
    requires c.Valid() && ServerInv(c, s) && StepEnabled(c, s, act) && i < c.capacity
    ensures var slots := StepApply(c, s, act).slots;
      && |slots| == c.capacity
      && (Live(slots[i]) && !Live(s.slots[i]) ==> act.Accept? && FirstEmpty(s.slots, 2) == i)
      && (act.Sends? && act.i == i && act.sent >= 0 ==> !Live(slots[i]))
  {
    if act.DispatchOne? {
      FrontResultHasSlot(c, s);
    }
  }

  lemma SentOnceStep(c: Setup, r: Trace, act: Step, i: nat)
    requires c.Valid() && TraceValid(c, Next(r, act)) && ServerInv(c, Reached(c, r))
    requires i < c.capacity && SentOnce(c, Reached(c, r).slots[i], Outgoing(c, r, i))
    ensures |StepApply(c, Reached(c, r), act).slots| == c.capacity
    ensures SentOnce(c, StepApply(c, Reached(c, r), act).slots[i], Outgoing(c, Next(r, act), i))
  {
    LifeOfSlot(c, Reached(c, r), act, i);
  }

  /** No connection ever gets more bytes than a pointer has, and one that is still served
      has got none: the first send call that succeeds is the last. */
  lemma {:induction false} OneSendPerConnection(c: Setup, r: Trace, i: nat)
    requires c.Valid() && TraceValid(c, r) && i < c.capacity
    ensures |Reached(c, r).slots| == c.capacity
    ensures 0 <= Outgoing(c, r, i) <= c.pointerSize
    ensures Live(Reached(c, r).slots[i]) ==> Outgoing(c, r, i) == 0
  {
    match r
    case Begin =>
    case Next(before, act) =>
      OneSendPerConnection(c, before, i);
      ServerInvAlways(c, before);
      SentOnceStep(c, before, act, i);
  }

  /** A whole file can go out exactly when it is no longer than a pointer. */
  lemma WholeFileExactlyWhen(c: Setup, r: Trace, i: nat)
    requires c.Valid() && TraceValid(c, r) && StepEnabled(c, Reached(c, r), Sends(i, 0))
    ensures Reached(c, r).slots[i].send.buffer.Some?
    ensures var size := |Reached(c, r).slots[i].send.buffer.value|;
      (exists sent :: TraceValid(c, Next(r, Sends(i, sent))) && Outgoing(c, Next(r, Sends(i, sent)), i) >= size)
      <==> size <= c.pointerSize
  {
    ServerInvAlways(c, r);
    OneSendPerConnection(c, r, i);
    var size := |Reached(c, r).slots[i].send.buffer.value|;
    if size <= c.pointerSize {
      assert TraceValid(c, Next(r, Sends(i, size))) && Outgoing(c, Next(r, Sends(i, size)), i) >= size;
    }
    forall sent | TraceValid(c, Next(r, Sends(i, sent)))
      ensures Outgoing(c, Next(r, Sends(i, sent)), i) <= c.pointerSize
    {
      OneSendPerConnection(c, Next(r, Sends(i, sent)), i);
    }
  }
}
