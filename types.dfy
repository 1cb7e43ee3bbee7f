/** Value types shared by the ICE agent model: candidates, pairs, STUN
    messages as the agent sees them, transaction records and the session
    state. */
module IceTypes {

  datatype Option<T> = None | Some(value: T)

  datatype NetworkType = UDP4 | UDP6 | TCP4 | TCP6

  datatype CandidateType = Host | ServerReflexive | PeerReflexive | Relay

  /** A transport address: the textual IP and the port. */
  datatype SocketAddr = SocketAddr(ip: string, port: nat)

  /** The identity of a candidate. Two candidates are equal when all of
      these parts are equal. */
  datatype Candidate = Candidate(
    kind: CandidateType,
    networkType: NetworkType,
    address: string,
    port: nat,
    component: nat)
  {
    /** The transport address the candidate can be reached at. */
    function Addr(): SocketAddr { SocketAddr(address, port) }
  }

  datatype PairState = Waiting | InProgress | Succeeded | Failed

  /** A (local, remote) candidate combination being checked. Its priority
      is computed when the pair is created and is treated as a given
      number. */
  datatype CandidatePair = CandidatePair(
    local: Candidate,
    remote: Candidate,
    state: PairState,
    nominated: bool,
    bindingRequestCount: nat,
    priority: nat)

  datatype ConnectionState = New | Checking | Connected | Completed | Disconnected | Failed | Closed

  /** What the agent posts on its notification channels. */
  datatype Notification = StateChanged(state: ConnectionState) | SelectedPairChanged

  datatype StunMethod = Binding | OtherMethod(code: nat)

  datatype StunClass = Request | Indication | SuccessResponse | ErrorResponse

  datatype Attribute = IceControlling | IceControlled | UseCandidate | OtherAttribute(code: nat)

  type TransactionId = nat

  /** A decoded STUN message: its type, its transaction id and the
      attributes it carries. */
  datatype Message = Message(
    stunMethod: StunMethod,
    stunClass: StunClass,
    transactionId: TransactionId,
    attributes: set<Attribute>)

  /** The record kept for an outbound binding request that awaits its
      response. */
  datatype BindingRequest = BindingRequest(
    timestamp: nat,
    transactionId: TransactionId,
    destination: SocketAddr,
    isUseCandidate: bool)

  datatype Error = ErrClosed

  datatype CloseResult = Ok | Err(error: Error)

  /** A call into a handler that lives outside the agent's core. */
  datatype Handoff =
    | SuccessResponseHandoff(msg: Message, local: Candidate, remote: Candidate, from: SocketAddr)
    | BindingRequestHandoff(msg: Message, local: Candidate, remote: Candidate)
}
