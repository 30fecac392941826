/** The records that pass between the Apex connections: what the parsers produce, what a
    connection remembers about a node, and what is handed to a connection's writer. */
module ApexTypes {
  import opened Wrappers

  type NodeId = string

  /** A writer is identified by the id of the connection that owns it. */
  type Writer = nat

  datatype Severity = Unstored | Silent | Noisy | Fatal

  datatype Reason =
    | ParserError
    | RegistrationExpected
    | MissingNodeId
    | WrongNodeId
    | Hijacked
    | UnchangedBeforeNew
    | UnchangedOtherSystem
    | BelowThreshold
    | PeerMayNotRegister
    | InconsistentPeerId
    | UnknownDestination
    | HandlerException

  datatype Error = Error(severity: Severity, reason: Reason)

  /** Both parsers fill in at most one of the registration, the status report and the detection
      confidence, so the three are the cases of one type. */
  datatype Body =
    | Registration(nodeName: string)
    | StatusReport(system: string, isUnchanged: bool)
    | Detection(confidence: Option<real>)
    | OtherBody

  datatype Parsed = Parsed(nodeId: Option<NodeId>, destination: Option<NodeId>, timestamp: int, body: Body)

  /** The value of a message record. Times are whole milliseconds. */
  datatype Message = Message(
    id: nat, receivedAt: int, parsed: Option<Parsed>, error: Option<Error>, forwardedCount: nat)

  /** What a writer serialises when it is handed a message record. */
  datatype Content = Content(id: nat, parsed: Parsed)

  datatype Origin = FromChild | FromPeer | FromParent | FromRecorder

  datatype Payload =
    | Forward(origin: Origin, content: Content)
    | Ack(node: NodeId)
    | ErrorReply(id: nat, destination: Option<NodeId>)

  /** One call of a writer. */
  datatype Delivery = Delivery(to: Writer, payload: Payload)

  datatype Config = Config(
    adjustTimeSync: bool,
    sendRegistrationAck: bool,
    allowPeerRegistration: bool,
    confidenceThreshold: Option<real>,
    storeFiltered: bool)
}
