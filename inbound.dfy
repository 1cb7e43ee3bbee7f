/** The rules of the inbound dispatcher that do not depend on the agent's
    mutable state: which messages are dropped before any lookup, the
    credentials a message is checked against, the peer-reflexive candidate
    synthesized for an unknown sender (section 7.3.1.3 of RFC 8445), and
    what a request from that sender does to the remote candidates and the
    checklist. */
module Inbound {
  import opened IceTypes
  import opened CandidateMaps
  import opened Checklist

  datatype DropReason =
    | UnhandledMessage          // not a Binding request, indication or success response
    | BothControlling           // a controlling agent got ICE-CONTROLLING
    | UseCandidateToControlling // a controlling agent got USE-CANDIDATE
    | BothControlled            // a controlled agent got ICE-CONTROLLED

  /** Why the dispatcher drops `m` before looking at its sender, if it
      does. */
  function Screen(m: Message, isControlling: bool): Option<DropReason> {
    if m.stunMethod != Binding ||
       !(m.stunClass == SuccessResponse || m.stunClass == Request || m.stunClass == Indication)
    then Some(UnhandledMessage)
    else if isControlling then
      if IceControlling in m.attributes then Some(BothControlling)
      else if UseCandidate in m.attributes then Some(UseCandidateToControlling)
      else None
    else if IceControlled in m.attributes then Some(BothControlled)
    else None
  }

  /** Exactly these messages pass the screen: Binding requests, indications
      and success responses that carry no attribute claiming the agent's
      own role, and, for a controlling agent, no USE-CANDIDATE (only the
      controlling side nominates). */
  lemma ScreenPassesExactly(m: Message, isControlling: bool)
    ensures Screen(m, isControlling).None? <==>
      m.stunMethod == Binding && m.stunClass != ErrorResponse &&
      (isControlling ==> IceControlling !in m.attributes && UseCandidate !in m.attributes) &&
      (!isControlling ==> IceControlled !in m.attributes)
    ensures Screen(m, isControlling) == Some(UnhandledMessage) <==>
      m.stunMethod != Binding || m.stunClass == ErrorResponse
  {
  }

  /** The username an inbound request must carry: the local fragment, a
      colon, the remote fragment. */
  function Username(localUfrag: string, remoteUfrag: string): (u: string)
    ensures |u| == |localUfrag| + 1 + |remoteUfrag| && u[|localUfrag|] == ':'
    ensures u[..|localUfrag|] == localUfrag && u[|localUfrag| + 1..] == remoteUfrag
  {
    localUfrag + ":" + remoteUfrag
  }

  /** The candidate synthesized for a request from an unknown address. Its
      network type is always UDP4, whatever the network type of the local
      candidate the request arrived on; its component is that local
      candidate's. */
  function PeerReflexiveFor(local: Candidate, from: SocketAddr): Candidate {
    Candidate(PeerReflexive, UDP4, from.ip, from.port, local.component)
  }

  /** The remote candidates and checklist after an authenticated request
      from `from` reaches `local`, when a peer-reflexive candidate can be
      built: a known sender (looked up under the local candidate's network
      type) changes nothing, an unknown one is admitted as a peer-reflexive
      candidate. */
  function RequestAdmission(locals: CandidateMap, remotes: CandidateMap, ps: seq<CandidatePair>, local: Candidate,
                            from: SocketAddr, priorityOf: PriorityRule, controlling: bool): (CandidateMap, seq<CandidatePair>)
  {
    if Lookup(remotes, local.networkType, from).Some? then (remotes, ps)
    else Admit(locals, remotes, ps, PeerReflexiveFor(local, from), priorityOf, controlling)
  }

  /** A request from an unknown UDP4 sender admits exactly one candidate,
      kept under UDP4 and reachable at the sender's address, with one new
      Waiting pair for each local UDP4 candidate; later lookups on the
      local candidate find it. On a local candidate of another network
      type the candidate is still kept under UDP4, so lookups on that local
      candidate keep missing it. */
  lemma UnknownSenderIsAdmitted(locals: CandidateMap, remotes: CandidateMap, ps: seq<CandidatePair>, local: Candidate,
                                from: SocketAddr, priorityOf: PriorityRule, controlling: bool)
    requires Lookup(remotes, local.networkType, from).None?
    requires local.networkType == UDP4 || PeerReflexiveFor(local, from) !in ListFor(remotes, UDP4)
    ensures var c := PeerReflexiveFor(local, from);
      var (r, q) := RequestAdmission(locals, remotes, ps, local, from, priorityOf, controlling);
      var ls := ListFor(locals, UDP4);
      ListFor(r, UDP4) == ListFor(remotes, UDP4) + [c] &&
      (forall nt :: nt != UDP4 ==> ListFor(r, nt) == ListFor(remotes, nt)) &&
      |q| == |ps| + |ls| && q[..|ps|] == ps &&
      (forall k :: 0 <= k < |ls| ==> Connects(q[|ps| + k], ls[k], c) && q[|ps| + k].state == PairState.Waiting) &&
      (local.networkType == UDP4 ==> Lookup(r, local.networkType, from).Some?) &&
      (local.networkType != UDP4 ==> Lookup(r, local.networkType, from).None?)
  {
    var c := PeerReflexiveFor(local, from);
    assert c.Addr() == from;
    AdmitEffect(locals, remotes, ps, c, priorityOf, controlling);
    var (r, q) := Admit(locals, remotes, ps, c, priorityOf, controlling);
    if local.networkType == UDP4 {
      assert c in ListFor(r, UDP4);
    }
  }

  /** Receiving the same authenticated request again admits nothing: the
      second one finds the candidate that the first admitted, or, on a
      local candidate that is not UDP4, synthesizes an equal candidate that
      admission then refuses. */
  lemma RepeatedRequestAdmitsNothing(locals: CandidateMap, remotes: CandidateMap, ps: seq<CandidatePair>,
                                     local: Candidate, from: SocketAddr, priorityOf: PriorityRule, controlling: bool)
    ensures var (r, q) := RequestAdmission(locals, remotes, ps, local, from, priorityOf, controlling);
      RequestAdmission(locals, r, q, local, from, priorityOf, controlling) == (r, q)
  {
    var c := PeerReflexiveFor(local, from);
    if Lookup(remotes, local.networkType, from).None? {
      var (r, q) := Admit(locals, remotes, ps, c, priorityOf, controlling);
      AdmitIsIdempotent(locals, remotes, ps, c, priorityOf, controlling);
      AdmitEffect(locals, remotes, ps, c, priorityOf, controlling);
      if local.networkType == UDP4 {
        assert c in ListFor(r, UDP4) && c.Addr() == from;
      }
    }
  }
}
