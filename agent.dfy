/** The agent's core object: its candidates, its checklist, its pending
    binding requests and its session state, changed in place by the
    connectivity checks, by inbound STUN traffic and by the session state
    machine. What leaves the agent (sent messages, notifications, calls
    into handlers kept elsewhere, closed sockets) is recorded in ghost
    logs. */
module Agent {
  import opened IceTypes
  import opened CandidateMaps
  import opened Checklist
  import opened Transactions
  import opened Liveness
  import opened Inbound

  /** The settings the core reads and never changes. Durations are in
      milliseconds. */
  datatype AgentConfig = AgentConfig(
    isControlling: bool,
    maxBindingRequests: nat,
    disconnectedTimeout: nat,
    failedTimeout: nat,
    keepaliveInterval: nat,
    localUfrag: string,
    localPwd: string,
    remoteUfrag: string,
    remotePwd: string,
    hasStateChannel: bool,
    hasPairChannel: bool,
    hasGatherCancel: bool)

  /** `c` is kept in some list of `m`. */
  ghost predicate Holds(m: CandidateMap, c: Candidate) {
    exists nt :: nt in m && c in m[nt]
  }

  /** 1 when `c` is held in `m`, else 0. This is the number of times `c`
      occurs in `m` only when `m`'s lists are duplicate-free and keyed by
      network type (`KeysMatch` and `ListsDistinct`), which every map the
      agent keeps satisfies. */
  ghost function HeldOnce(m: CandidateMap, c: Candidate): nat {
    if Holds(m, c) then 1 else 0
  }

  /** From `before` to `after` the close log was extended by closing each
      candidate held in `locals` and each held in `remotes` once, and
      nothing else; "once" is exact for maps satisfying `KeysMatch` and
      `ListsDistinct`. */
  ghost predicate ClosedAll(before: seq<Candidate>, after: seq<Candidate>, locals: CandidateMap, remotes: CandidateMap) {
    |before| <= |after| && after[..|before|] == before &&
    forall c :: multiset(after[|before|..])[c] == HeldOnce(locals, c) + HeldOnce(remotes, c)
  }

  class AgentInternal {
    const isControlling: bool
    const maxBindingRequests: nat
    const disconnectedTimeout: nat
    const failedTimeout: nat
    const keepaliveInterval: nat
    const localUfrag: string
    const localPwd: string
    const remoteUfrag: string
    const remotePwd: string
    /** How `CandidatePair::new` prioritizes a pair. */
    const priorityOf: PriorityRule
    /** Whether the state-change and the pair-change channels are
        attached, and whether a gathering cancel callback is set. */
    const hasStateChannel: bool
    const hasPairChannel: bool
    const hasGatherCancel: bool

    /** The closing signal is still held (the agent is not closed). */
    var done: bool
    /** The one-shot "connected" signal has not fired yet. */
    var onConnectedPending: bool
    var connectionState: ConnectionState
    var selectedPair: Option<CandidatePair>
    var localCandidates: CandidateMap
    var remoteCandidates: CandidateMap
    var checklist: seq<CandidatePair>
    var pendingBindingRequests: seq<BindingRequest>

    /** Notifications posted on the state and pair channels. */
    ghost var notifications: seq<Notification>
    /** Candidates whose sockets were closed. */
    ghost var closed: seq<Candidate>
    /** Connectivity checks started, as (local, remote). */
    ghost var pings: seq<(Candidate, Candidate)>
    /** STUN messages written to the network. */
    ghost var stunSent: seq<(Message, Candidate, Candidate)>
    /** Calls into the success-response and binding-request handlers. */
    ghost var handoffs: seq<Handoff>
    /** Remote candidates marked as heard from. */
    ghost var seen: seq<Candidate>
    /** Calls of the gathering cancel callback. */
    ghost var gatherCancels: nat

    /** The object invariant: the registry invariant of the candidate maps
        and the checklist, and only a nominated pair is ever selected. */
    ghost predicate Valid()
      reads this
    {
      RegistryValid(localCandidates, remoteCandidates, checklist) &&
      (selectedPair.Some? ==> selectedPair.value.nominated)
    }

    /** An agent with the given settings and gathered local candidates, not
        yet connected and with nothing else known. */
    constructor (config: AgentConfig, priorityOf: PriorityRule, locals: CandidateMap)
      requires KeysMatch(locals) && ListsDistinct(locals)
      ensures Valid()
      ensures isControlling == config.isControlling && maxBindingRequests == config.maxBindingRequests
      ensures disconnectedTimeout == config.disconnectedTimeout && failedTimeout == config.failedTimeout
      ensures keepaliveInterval == config.keepaliveInterval
      ensures localUfrag == config.localUfrag && localPwd == config.localPwd
      ensures remoteUfrag == config.remoteUfrag && remotePwd == config.remotePwd
      ensures hasStateChannel == config.hasStateChannel && hasPairChannel == config.hasPairChannel
      ensures hasGatherCancel == config.hasGatherCancel && this.priorityOf == priorityOf
      ensures done && onConnectedPending && connectionState == ConnectionState.New && selectedPair == None
      ensures localCandidates == locals && remoteCandidates == map[] && checklist == [] && pendingBindingRequests == []
      ensures notifications == [] && closed == [] && pings == [] && stunSent == [] && handoffs == [] && seen == []
      ensures gatherCancels == 0
    {
      isControlling := config.isControlling;
      maxBindingRequests := config.maxBindingRequests;
      disconnectedTimeout := config.disconnectedTimeout;
      failedTimeout := config.failedTimeout;
      keepaliveInterval := config.keepaliveInterval;
      localUfrag := config.localUfrag;
      localPwd := config.localPwd;
      remoteUfrag := config.remoteUfrag;
      remotePwd := config.remotePwd;
      hasStateChannel := config.hasStateChannel;
      hasPairChannel := config.hasPairChannel;
      hasGatherCancel := config.hasGatherCancel;
      this.priorityOf := priorityOf;
      done := true;
      onConnectedPending := true;
      connectionState := ConnectionState.New;
      selectedPair := None;
      localCandidates := locals;
      remoteCandidates := map[];
      checklist := [];
      pendingBindingRequests := [];
      notifications := [];
      closed := [];
      pings := [];
      stunSent := [];
      handoffs := [];
      seen := [];
      gatherCancels := 0;
    }

    // -------------------------------------------------------------------
    // Lifecycle

    /** Closing an agent that is already closed reports ErrClosed and does
        nothing; otherwise it cancels gathering and gives up the closing
        signal, so the next close reports ErrClosed. */
    method Close() returns (r: CloseResult)
      modifies this`done, this`gatherCancels
      ensures r == if old(done) then Ok else Err(ErrClosed)
      ensures !done
      ensures gatherCancels == old(gatherCancels) + (if old(done) && hasGatherCancel then 1 else 0)
    {
      if !done {
        return Err(ErrClosed);
      }
      if hasGatherCancel {
        gatherCancels := gatherCancels + 1;
      }
      done := false;
      return Ok;
    }

    // -------------------------------------------------------------------
    // Session state machine

    /** The effect of moving the session to `s`: nothing at all when it is
        already there; otherwise the state is set and one StateChanged(s)
        is posted (when the channel is attached), and a move to Failed
        first closes every candidate and empties both candidate maps. */
    twostate predicate MovedTo(s: ConnectionState)
      reads this
    {
      connectionState == s &&
      (old(connectionState) == s ==> notifications == old(notifications)) &&
      (old(connectionState) != s ==>
        notifications == old(notifications) + (if hasStateChannel then [StateChanged(s)] else [])) &&
      (old(connectionState) != s && s == ConnectionState.Failed ==>
        localCandidates == map[] && remoteCandidates == map[] &&
        ClosedAll(old(closed), closed, old(localCandidates), old(remoteCandidates))) &&
      (old(connectionState) == s || s != ConnectionState.Failed ==>
        localCandidates == old(localCandidates) && remoteCandidates == old(remoteCandidates) &&
        closed == old(closed))
    }

    method UpdateConnectionState(newState: ConnectionState)
      requires Valid()
      modifies this`connectionState, this`notifications, this`localCandidates, this`remoteCandidates, this`closed
      ensures Valid()
      ensures MovedTo(newState)
    {
      if connectionState != newState {
        if newState == ConnectionState.Failed {
          DeleteAllCandidates();
        }
        connectionState := newState;
        if hasStateChannel {
          notifications := notifications + [StateChanged(newState)];
        }
      }
    }

    /** Closes every local and every remote candidate and forgets them all. */
    method DeleteAllCandidates()
      requires Valid()
      modifies this`localCandidates, this`remoteCandidates, this`closed
      ensures Valid()
      ensures localCandidates == map[] && remoteCandidates == map[]
      ensures ClosedAll(old(closed), closed, old(localCandidates), old(remoteCandidates))
    {
      ghost var start := closed;
      CloseEach(localCandidates);
      ghost var mid := closed;
      localCandidates := map[];
      CloseEach(remoteCandidates);
      remoteCandidates := map[];
      assert closed[|start|..] == mid[|start|..] + closed[|mid|..];
    }

    /** Closes every candidate held in `m`, each once. */
    method CloseEach(m: CandidateMap)
      requires KeysMatch(m) && ListsDistinct(m)
      modifies this`closed
      ensures ClosedAll(old(closed), closed, m, map[])
    {
      ghost var start := closed;
      var keys := m.Keys;
      while keys != {}
        invariant keys <= m.Keys
        invariant |start| <= |closed| && closed[..|start|] == start
        invariant forall c :: (multiset(closed[|start|..])[c] ==
          if c.networkType in m && c.networkType !in keys && c in m[c.networkType] then 1 else 0)
        decreases keys
      {
        var nt :| nt in keys;
        var cs := m[nt];
        ghost var before := closed;
        for k := 0 to |cs|
          invariant closed == before + cs[..k]
        {
          closed := closed + [cs[k]];
        }
        assert cs[..|cs|] == cs;
        assert closed[|start|..] == before[|start|..] + cs;
        DistinctCounts(cs);
        forall c | c in cs
          ensures c.networkType == nt
        {
          var i :| 0 <= i < |cs| && cs[i] == c;
        }
        keys := keys - {nt};
      }
      forall c
        ensures multiset(closed[|start|..])[c] == HeldOnce(m, c) + HeldOnce(map[], c)
      {
        assert !Holds(map[], c);
        if Holds(m, c) {
          var nt :| nt in m && c in m[nt];
          var i :| 0 <= i < |m[nt]| && m[nt][i] == c;
        }
      }
    }

    /** Selecting a pair stores a nominated copy of it (the pair in the
        checklist is left as it is), moves the session to Connected, posts
        one pair-change notification and fires the "connected" signal.
        Clearing the selection changes nothing else. */
    method SetSelectedPair(p: Option<CandidatePair>)
      requires Valid()
      modifies this`selectedPair, this`connectionState, this`notifications, this`onConnectedPending
      modifies this`localCandidates, this`remoteCandidates, this`closed
      ensures Valid()
      ensures p.None? ==> selectedPair == None && unchanged(this`connectionState, this`notifications, this`onConnectedPending)
      ensures p.Some? ==>
        selectedPair == Some(p.value.(nominated := true)) &&
        connectionState == ConnectionState.Connected && !onConnectedPending &&
        notifications == old(notifications) +
          (if old(connectionState) != ConnectionState.Connected && hasStateChannel
           then [StateChanged(ConnectionState.Connected)] else []) +
          (if hasPairChannel then [SelectedPairChanged] else [])
      ensures localCandidates == old(localCandidates) && remoteCandidates == old(remoteCandidates)
      ensures closed == old(closed)
    {
      if p.Some? {
        var q := p.value.(nominated := true);
        selectedPair := Some(q);
        UpdateConnectionState(ConnectionState.Connected);
        if hasPairChannel {
          notifications := notifications + [SelectedPairChanged];
        }
        onConnectedPending := false;
      } else {
        selectedPair := None;
      }
    }

    /** With no selected pair, reports false and changes nothing. Otherwise
        moves the session to the state that the silence of the selected
        pair's remote side calls for, `elapsed` being the time since it was
        last heard from, and reports true. */
    method ValidateSelectedPair(elapsed: nat) returns (valid: bool)
      requires Valid()
      modifies this`connectionState, this`notifications, this`localCandidates, this`remoteCandidates, this`closed
      ensures Valid()
      ensures valid == selectedPair.Some?
      ensures !valid ==> unchanged(this)
      ensures valid ==> MovedTo(ValidationTarget(elapsed, disconnectedTimeout, failedTimeout))
    {
      if selectedPair.Some? {
        var totalTimeToFailure := failedTimeout;
        if totalTimeToFailure != 0 {
          totalTimeToFailure := totalTimeToFailure + disconnectedTimeout;
        }
        if totalTimeToFailure != 0 && elapsed > totalTimeToFailure {
          UpdateConnectionState(ConnectionState.Failed);
        } else if disconnectedTimeout != 0 && elapsed > disconnectedTimeout {
          UpdateConnectionState(ConnectionState.Disconnected);
        } else {
          UpdateConnectionState(ConnectionState.Connected);
        }
        valid := true;
      } else {
        valid := false;
      }
    }

    /** Starts a check on the selected pair when a keepalive is due, with
        `sinceSent` the time since its local side last sent and
        `sinceReceived` the time since its remote side was last heard
        from. */
    method CheckKeepalive(sinceSent: nat, sinceReceived: nat)
      modifies this`pings
      ensures pings == old(pings) +
        (if selectedPair.Some? && KeepaliveDue(keepaliveInterval, sinceSent, sinceReceived)
         then [(selectedPair.value.local, selectedPair.value.remote)] else [])
    {
      if selectedPair.Some? {
        var sp := selectedPair.value;
        if keepaliveInterval != 0 && (sinceSent > keepaliveInterval || sinceReceived > keepaliveInterval) {
          PingCandidate(sp.local, sp.remote);
        }
      }
    }

    // -------------------------------------------------------------------
    // Checklist

    /** The best available pair, as the position of the pair in the
        checklist (the handle through which callers change it): none when
        every pair is Failed or there are none. */
    method GetBestAvailableCandidatePairMut() returns (best: Option<nat>)
      ensures best.None? <==> forall i :: 0 <= i < |checklist| ==> checklist[i].state == PairState.Failed
      ensures best.Some? ==> IsBestAvailable(checklist, best.value)
    {
      best := None;
      for i := 0 to |checklist|
        invariant best.None? <==> forall j :: 0 <= j < i ==> checklist[j].state == PairState.Failed
        invariant best.Some? ==> IsBestAvailable(checklist[..i], best.value)
      {
        var p := checklist[i];
        if p.state == PairState.Failed {
          continue;
        }
        if best.Some? {
          if checklist[best.value].priority < p.priority {
            best := Some(i);
          }
        } else {
          best := Some(i);
        }
      }
      assert checklist[..|checklist|] == checklist;
    }

    /** The best available pair itself. */
    method GetBestAvailableCandidatePair() returns (best: Option<CandidatePair>)
      ensures best.None? <==> forall i :: 0 <= i < |checklist| ==> checklist[i].state == PairState.Failed
      ensures best.Some? ==> exists b: nat :: IsBestAvailable(checklist, b) && best.value == checklist[b]
    {
      var b := GetBestAvailableCandidatePairMut();
      best := if b.Some? then Some(checklist[b.value]) else None;
    }

    /** Appends a new pair for `local` and `remote`. */
    method AddPair(local: Candidate, remote: Candidate)
      modifies this`checklist
      ensures checklist == old(checklist) + [NewPair(local, remote, priorityOf(local, remote, isControlling))]
    {
      var p := NewPair(local, remote, priorityOf(local, remote, isControlling));
      checklist := checklist + [p];
    }

    /** The position of the first pair joining `local` and `remote`. */
    method GetPairMut(local: Candidate, remote: Candidate) returns (r: Option<nat>)
      ensures r.None? <==> forall i :: 0 <= i < |checklist| ==> !Connects(checklist[i], local, remote)
      ensures r.Some? ==> r.value < |checklist| && Connects(checklist[r.value], local, remote)
      ensures r.Some? ==> forall j :: 0 <= j < r.value ==> !Connects(checklist[j], local, remote)
    {
      for i := 0 to |checklist|
        invariant forall j :: 0 <= j < i ==> !Connects(checklist[j], local, remote)
      {
        if checklist[i].local == local && checklist[i].remote == remote {
          return Some(i);
        }
      }
      return None;
    }

    /** The first pair joining `local` and `remote`. */
    method FindPair(local: Candidate, remote: Candidate) returns (r: Option<CandidatePair>)
      ensures r.None? <==> forall i :: 0 <= i < |checklist| ==> !Connects(checklist[i], local, remote)
      ensures r.Some? ==> exists i :: (0 <= i < |checklist| && r.value == checklist[i] &&
        Connects(checklist[i], local, remote) && forall j :: 0 <= j < i ==> !Connects(checklist[j], local, remote))
    {
      var i := GetPairMut(local, remote);
      r := if i.Some? then Some(checklist[i.value]) else None;
    }

    // -------------------------------------------------------------------
    // Connectivity checks

    /** Starts a connectivity check from `local` to `remote`. */
    method PingCandidate(local: Candidate, remote: Candidate)
      modifies this`pings
      ensures pings == old(pings) + [(local, remote)]
    {
      pings := pings + [(local, remote)];
    }

    /** One scheduler pass: every Waiting pair becomes InProgress; every
        active pair over the request cap becomes Failed; every other active
        pair has its count raised by one and gets a check, in checklist
        order, once the scan is over. */
    method PingAllCandidates()
      requires Valid()
      modifies this`checklist, this`pings
      ensures Valid()
      ensures checklist == Scan(old(checklist), maxBindingRequests)
      ensures pings == old(pings) + Queued(old(checklist), maxBindingRequests)
    {
      ghost var ps := checklist;
      var pairs: seq<(Candidate, Candidate)> := [];
      for i := 0 to |checklist|
        invariant |checklist| == |ps|
        invariant forall j :: 0 <= j < i ==> checklist[j] == ScanStep(ps[j], maxBindingRequests)
        invariant forall j :: i <= j < |ps| ==> checklist[j] == ps[j]
        invariant pairs == Queued(ps[..i], maxBindingRequests)
        invariant pings == old(pings)
      {
        var p := checklist[i];
        QueuedAppend(ps[..i], p, maxBindingRequests);
        assert ps[..i + 1] == ps[..i] + [p];
        if p.state == PairState.Waiting {
          p := p.(state := PairState.InProgress);
        } else if p.state != PairState.InProgress {
          continue;
        }
        if p.bindingRequestCount > maxBindingRequests {
          p := p.(state := PairState.Failed);
        } else {
          p := p.(bindingRequestCount := p.bindingRequestCount + 1);
          pairs := pairs + [(p.local, p.remote)];
        }
        checklist := checklist[i := p];
      }
      assert ps[..|ps|] == ps;
      assert checklist == Scan(ps, maxBindingRequests);
      ScanKeepsRegistry(localCandidates, remoteCandidates, ps, maxBindingRequests);
      for k := 0 to |pairs|
        invariant pings == old(pings) + pairs[..k]
        invariant checklist == Scan(ps, maxBindingRequests)
      {
        PingCandidate(pairs[k].0, pairs[k].1);
      }
      assert pairs[..|pairs|] == pairs;
    }

    // -------------------------------------------------------------------
    // Transaction tracker

    /** Drops the records that are at least the transaction timeout old at
        `filterTime`. */
    method InvalidatePendingBindingRequests(filterTime: nat)
      modifies this`pendingBindingRequests
      ensures pendingBindingRequests == Prune(old(pendingBindingRequests), filterTime)
    {
      var rs := pendingBindingRequests;
      var temp: seq<BindingRequest> := [];
      for i := 0 to |rs|
        invariant temp == Prune(rs[..i], filterTime)
      {
        assert rs[..i + 1] == rs[..i] + [rs[i]];
        PruneConcat(rs[..i], [rs[i]], filterTime);
        assert [rs[i]][1..] == [];
        if Age(filterTime, rs[i].timestamp) < MAX_BINDING_REQUEST_TIMEOUT {
          temp := temp + [rs[i]];
        }
      }
      assert rs[..|rs|] == rs;
      pendingBindingRequests := temp;
    }

    /** Writes a STUN message from `local` to `remote`. */
    method SendStun(m: Message, local: Candidate, remote: Candidate)
      modifies this`stunSent
      ensures stunSent == old(stunSent) + [(m, local, remote)]
    {
      stunSent := stunSent + [(m, local, remote)];
    }

    /** Sends a binding request at `now`: prunes the records, records the
        request's transaction id, its destination and whether it nominates,
        and writes it out. */
    method SendBindingRequest(m: Message, local: Candidate, remote: Candidate, now: nat)
      modifies this`pendingBindingRequests, this`stunSent
      ensures pendingBindingRequests ==
        Record(old(pendingBindingRequests), now, m.transactionId, remote.Addr(), UseCandidate in m.attributes)
      ensures stunSent == old(stunSent) + [(m, local, remote)]
    {
      InvalidatePendingBindingRequests(now);
      pendingBindingRequests := pendingBindingRequests +
        [BindingRequest(now, m.transactionId, remote.Addr(), UseCandidate in m.attributes)];
      SendStun(m, local, remote);
    }

    /** A success response with transaction id `id` arrived at `now`: prunes
        the records, then takes out and returns the first one with that id. */
    method HandleInboundBindingSuccess(id: TransactionId, now: nat) returns (r: Option<BindingRequest>)
      modifies this`pendingBindingRequests
      ensures (r, pendingBindingRequests) == Resolve(old(pendingBindingRequests), id, now)
    {
      InvalidatePendingBindingRequests(now);
      ghost var live := pendingBindingRequests;
      for i := 0 to |pendingBindingRequests|
        invariant pendingBindingRequests == live
        invariant forall j :: 0 <= j < i ==> live[j].transactionId != id
      {
        if pendingBindingRequests[i].transactionId == id {
          r := Some(pendingBindingRequests[i]);
          pendingBindingRequests := pendingBindingRequests[..i] + pendingBindingRequests[i + 1..];
          assert FirstWithId(live, id) == Some(i);
          return;
        }
      }
      r := None;
    }

    // -------------------------------------------------------------------
    // Inbound traffic

    /** The first remote candidate of network type `networkType` at `addr`. */
    method FindRemoteCandidate(networkType: NetworkType, addr: SocketAddr) returns (r: Option<Candidate>)
      ensures r == Lookup(remoteCandidates, networkType, addr)
    {
      if networkType in remoteCandidates {
        var cands := remoteCandidates[networkType];
        for i := 0 to |cands|
          invariant forall j :: 0 <= j < i ==> cands[j].Addr() != addr
        {
          if cands[i].address == addr.ip && cands[i].port == addr.port {
            assert FirstAt(cands, addr) == Some(i);
            return Some(cands[i]);
          }
        }
      }
      return None;
    }

    /** Admits the remote candidate `c`: ignored when an equal candidate is
        already kept under its network type; otherwise kept, and paired
        with every local candidate of that type. */
    method AddRemoteCandidate(c: Candidate)
      requires Valid()
      modifies this`remoteCandidates, this`checklist
      ensures Valid()
      ensures (remoteCandidates, checklist) ==
        Admit(localCandidates, old(remoteCandidates), old(checklist), c, priorityOf, isControlling)
    {
      AdmitKeepsRegistry(localCandidates, remoteCandidates, checklist, c, priorityOf, isControlling);
      var networkType := c.networkType;
      if networkType in remoteCandidates {
        var cands := remoteCandidates[networkType];
        for i := 0 to |cands|
          invariant c !in cands[..i]
          invariant remoteCandidates == old(remoteCandidates) && checklist == old(checklist)
        {
          if cands[i] == c {
            return;
          }
          assert cands[..i + 1] == cands[..i] + [cands[i]];
        }
        assert cands[..|cands|] == cands;
      }
      if networkType in remoteCandidates {
        remoteCandidates := remoteCandidates[networkType := remoteCandidates[networkType] + [c]];
      } else {
        assert ListFor(remoteCandidates, networkType) + [c] == [c];
        remoteCandidates := remoteCandidates[networkType := [c]];
      }
      var localCands: seq<Candidate> := [];
      if networkType in localCandidates {
        localCands := localCandidates[networkType];
      }
      ghost var ps := old(checklist);
      for k := 0 to |localCands|
        invariant checklist == ps + PairsWith(localCands[..k], c, priorityOf, isControlling)
        invariant remoteCandidates == Insert(old(remoteCandidates), c)
      {
        assert PairsWith(localCands[..k + 1], c, priorityOf, isControlling) ==
          PairsWith(localCands[..k], c, priorityOf, isControlling) +
          [NewPair(localCands[k], c, priorityOf(localCands[k], c, isControlling))];
        AddPair(localCands[k], c);
      }
      assert localCands[..|localCands|] == localCands;
    }

    /** Marks the remote candidate `c` as heard from. */
    method Seen(c: Candidate)
      modifies this`seen
      ensures seen == old(seen) + [c]
    {
      seen := seen + [c];
    }

    /** Hands a success response to its handler. */
    method HandleSuccessResponse(m: Message, local: Candidate, remote: Candidate, from: SocketAddr)
      modifies this`handoffs
      ensures handoffs == old(handoffs) + [SuccessResponseHandoff(m, local, remote, from)]
    {
      handoffs := handoffs + [SuccessResponseHandoff(m, local, remote, from)];
    }

    /** Hands a binding request to its handler. */
    method HandleBindingRequest(m: Message, local: Candidate, remote: Candidate)
      modifies this`handoffs
      ensures handoffs == old(handoffs) + [BindingRequestHandoff(m, local, remote)]
    {
      handoffs := handoffs + [BindingRequestHandoff(m, local, remote)];
    }

    /** Dispatches the STUN message `m` that arrived on `local` from `from`.
        `usernameOk(m, u)` and `integrityOk(m, key)` stand for the checks of
        the USERNAME and MESSAGE-INTEGRITY attributes; `prflxOk` says
        whether a peer-reflexive candidate can be built for the sender.
        Screened-out messages, failed checks and success responses from an
        unknown sender change nothing and mark nothing as seen. */
    method HandleInbound(m: Message, local: Candidate, from: SocketAddr,
                         usernameOk: (Message, string) -> bool, integrityOk: (Message, string) -> bool,
                         prflxOk: bool)
      requires Valid()
      modifies this`remoteCandidates, this`checklist, this`handoffs, this`seen
      ensures Valid()
      ensures Screen(m, isControlling).Some? ==> unchanged(this)
      ensures Screen(m, isControlling).None? && m.stunClass == SuccessResponse ==>
        var known := Lookup(old(remoteCandidates), local.networkType, from);
        if !integrityOk(m, remotePwd) || known.None? then unchanged(this)
        else
          remoteCandidates == old(remoteCandidates) && checklist == old(checklist) &&
          handoffs == old(handoffs) + [SuccessResponseHandoff(m, local, known.value, from)] &&
          seen == old(seen) + [known.value]
      ensures Screen(m, isControlling).None? && m.stunClass == Request ==>
        var known := Lookup(old(remoteCandidates), local.networkType, from);
        var rc := if known.Some? then known.value else PeerReflexiveFor(local, from);
        if !usernameOk(m, Username(localUfrag, remoteUfrag)) || !integrityOk(m, localPwd) ||
           (known.None? && !prflxOk)
        then unchanged(this)
        else
          (remoteCandidates, checklist) ==
            RequestAdmission(localCandidates, old(remoteCandidates), old(checklist), local, from, priorityOf, isControlling) &&
          handoffs == old(handoffs) + [BindingRequestHandoff(m, local, rc)] &&
          seen == old(seen) + [rc]
      ensures Screen(m, isControlling).None? && m.stunClass == Indication ==>
        var known := Lookup(old(remoteCandidates), local.networkType, from);
        remoteCandidates == old(remoteCandidates) && checklist == old(checklist) && handoffs == old(handoffs) &&
        seen == old(seen) + (if known.Some? then [known.value] else [])
    {
      if m.stunMethod != Binding ||
         !(m.stunClass == SuccessResponse || m.stunClass == Request || m.stunClass == Indication) {
        return;
      }
      if isControlling {
        if IceControlling in m.attributes {
          return;
        } else if UseCandidate in m.attributes {
          return;
        }
      } else if IceControlled in m.attributes {
        return;
      }

      var remoteCandidate := FindRemoteCandidate(local.networkType, from);
      if m.stunClass == SuccessResponse {
        if !integrityOk(m, remotePwd) {
          return;
        }
        if remoteCandidate.Some? {
          HandleSuccessResponse(m, local, remoteCandidate.value, from);
        } else {
          return;
        }
      } else if m.stunClass == Request {
        var username := Username(localUfrag, remoteUfrag);
        if !usernameOk(m, username) {
          return;
        } else if !integrityOk(m, localPwd) {
          return;
        }
        if remoteCandidate.None? {
          if !prflxOk {
            return;
          }
          remoteCandidate := Some(PeerReflexiveFor(local, from));
          AddRemoteCandidate(remoteCandidate.value);
        }
        HandleBindingRequest(m, local, remoteCandidate.value);
      }
      if remoteCandidate.Some? {
        Seen(remoteCandidate.value);
      }
    }
  }
}
