/** Messages exchanged by the Paxos servers. */
module Messages {
  import opened Options
  import opened Commands

  datatype MessageType = PREPARE | PREPARE_ACK | ACCEPT | ACCEPT_ACK | PREPARE_NACK

  /** The value slot of a message is untyped in the source: a command, a bare
      client id (first PREPARE_ACK), or nothing. */
  datatype Payload = NoValue | ClientId(id: int) | Cmd(command: Command)

  /** What one instance decides: a command together with the client it came from. */
  datatype Value = Value(payload: Payload, client: Option<int>)

  datatype Message = Message(
    kind: MessageType,
    proposal: nat,
    instance: nat,
    payload: Payload,
    origin: nat,
    client: Option<int>,
    rproposal: int)

  /** Default of client_id in the message constructor. */
  const NO_CLIENT := -1
  /** Default of r_proposal, and the accepted number of an acceptor that accepted nothing. */
  const NO_PROPOSAL := -1

  function ValueOf(m: Message): Value {
    Value(m.payload, m.client)
  }

  predicate IsRequest(m: Message) {
    m.kind.PREPARE? || m.kind.ACCEPT?
  }

  predicate IsPrepareReply(m: Message) {
    m.kind.PREPARE_ACK? || m.kind.PREPARE_NACK?
  }

  function PrepareMsg(proposal: nat, instance: nat, origin: nat, client: int): Message {
    Message(PREPARE, proposal, instance, NoValue, origin, Some(client), NO_PROPOSAL)
  }

  function AcceptMsg(proposal: nat, instance: nat, v: Value, origin: nat): Message {
    Message(ACCEPT, proposal, instance, v.payload, origin, v.client, NO_PROPOSAL)
  }

  function AcceptAckMsg(proposal: nat, instance: nat, v: Value, origin: nat): Message {
    Message(ACCEPT_ACK, proposal, instance, v.payload, origin, v.client, NO_PROPOSAL)
  }
}
