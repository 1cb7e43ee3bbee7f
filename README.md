# Connectivity-check core of an ICE agent, in Dafny

This project models `AgentInternal`, the stateful core of the Rust ICE agent (Interactive Connectivity Establishment, RFC 8445). The model covers five parts:

- **Candidate registry.** Local and remote candidates are kept per network type.
- **Checklist.** Candidate pairs are created eagerly when a remote candidate is admitted. The best available pair is picked by priority. Each scheduler pass promotes pairs, caps their binding requests and queues connectivity checks.
- **Transaction tracker.** Outbound binding requests are remembered, pruned after the transaction timeout of Appendix B.1 of RFC 8445, and consumed once by a matching success response.
- **Session state machine.** This covers selection of a nominated pair, validation of the selected pair against the disconnected and failed timeouts, release of all candidates on failure, keepalive (consent refresh by binding request, RFC 7675) and closing.
- **Inbound dispatcher.** It applies the method and class filter and the role-conflict discards. It then applies the authentication gates and admits a peer-reflexive candidate for an unknown sender (section 7.3.1.3 of RFC 8445).

## Layout

- `types.dfy` (`IceTypes`): candidates, pairs, session states, STUN messages, binding-request records.
- `candidate_maps.dfy` (`CandidateMaps`): the per-network-type candidate maps, with lookup by address and insertion.
- `checklist.dfy` (`Checklist`): specification functions for the pair registry. Covers the best available pair, the scheduler scan and remote-candidate admission, with their lemmas.
- `transactions.dfy` (`Transactions`): pruning, recording and resolving binding requests, with their lemmas.
- `liveness.dfy` (`Liveness`): the validation thresholds and the keepalive rule.
- `inbound.dfy` (`Inbound`): the dispatcher's screen, the expected username, the synthesized peer-reflexive candidate, and what a request does to the registry.
- `agent.dfy` (`Agent`): the class `AgentInternal`.

The class's fields are the agent's fields, changed in place by its methods. Each method is proved against the functions above: its `ensures` ties the new state to a specification function of the old state, and the properties of that function are proved as lemmas. The class invariant `Valid()` has two parts:

- the registry invariants: every map key matches its candidates' network type, no list holds a candidate twice, no two pairs join the same candidates, and a pair's remote candidate is kept whenever its local one is;
- only a nominated pair is ever selected.

What leaves the agent is recorded in ghost logs: sent STUN messages, started checks, channel notifications, calls into handlers defined elsewhere, closed candidates, and candidates marked as seen. This lets the contracts say what was emitted, and that nothing was emitted on a no-op.

Clock readings are parameters: `now`, `filterTime`, `elapsed`, `sinceSent` and `sinceReceived`, as natural numbers of milliseconds. A duration from a later instant to an earlier one counts as zero, as the source's duration arithmetic saturates there.

## Model

| member | source | states |
|---|---|---|
| Agent.AgentInternal.constructor | src/agent/agent_internal.rs:6-98 | A fresh agent holds the closing signal and the pending "connected" signal. It is in state New with no selected pair, no remote candidates, an empty checklist and no pending requests, and its logs are empty. |
| Agent.AgentInternal.Close | src/agent/agent_internal.rs:105-119 | Closing an already-closed agent returns ErrClosed and changes nothing. Otherwise it calls the gathering cancel callback (when one is set), gives up the closing signal and returns Ok, so a second close returns ErrClosed. |
| Agent.AgentInternal.UpdateConnectionState | src/agent/agent_internal.rs:147-163 | When the state is already the new one, nothing changes and nothing is emitted. Otherwise the state is set and exactly one StateChanged event is posted when the state channel is attached. A move to Failed first closes every held candidate and empties both maps. The registry invariant is kept. |
| Agent.AgentInternal.DeleteAllCandidates | src/agent/agent_internal.rs:169-187 | Afterwards both candidate maps are empty. The close log was extended by each candidate the local map held and each the remote map held, exactly once per map, and by nothing else. |
| Agent.AgentInternal.CloseEach | src/agent/agent_internal.rs:170-176 | For a map whose lists are keyed by network type and free of duplicates, the close log is extended by each candidate in the map exactly once, and by nothing else. |
| Agent.AgentInternal.SetSelectedPair | src/agent/agent_internal.rs:125-145 | With `Some(p)`, the selection becomes a copy of `p` with `nominated` set, and the checklist's own pair is untouched. The state becomes Connected, with a StateChanged event only if it was not Connected already. Exactly one pair-change event follows when that channel is attached, and the "connected" signal fires. With `None`, only the selection is cleared: no state change and no event. |
| Agent.AgentInternal.ValidateSelectedPair | src/agent/agent_internal.rs:268-300 | With no selected pair it returns false and changes nothing. Otherwise it returns true and moves the session to `Liveness.ValidationTarget` of the elapsed silence, with the effects of UpdateConnectionState. |
| Liveness.ValidationTiers | src/agent/agent_internal.rs:276-294 | The resulting state is Failed iff the failed timeout is non-zero and the silence exceeds failed + disconnected timeout. It is Disconnected iff it is not Failed, the disconnected timeout is non-zero and the silence exceeds it. Otherwise it is Connected. |
| Liveness.ValidationIsMonotone | src/agent/agent_internal.rs:276-294 | A longer silence never yields a better state of the three. |
| Liveness.ValidationExample | src/agent/agent_internal.rs:276-294 | With timeouts of 5 s disconnected and 10 s failed: 4 s of silence is Connected, 6 s and 12 s are Disconnected, 16 s is Failed. |
| Agent.AgentInternal.CheckKeepalive | src/agent/agent_internal.rs:305-330 | A check on the selected pair is started exactly when a pair is selected and `Liveness.KeepaliveDue` holds; nothing else happens. |
| Liveness.KeepaliveIsMonotone | src/agent/agent_internal.rs:319-322 | A zero interval never pings. Once a keepalive is due, it stays due as both idle times grow. |
| Agent.AgentInternal.GetBestAvailableCandidatePairMut | src/agent/agent_internal.rs:209-227 | Returns no position iff every pair is Failed (including an empty checklist). Otherwise it returns the position of a non-Failed pair whose priority is at least that of every non-Failed pair and strictly above every earlier one, so the earliest wins ties. |
| Agent.AgentInternal.GetBestAvailableCandidatePair | src/agent/agent_internal.rs:189-207 | Returns None iff every pair is Failed. Otherwise it returns a pair at a position that is the best available one. |
| Checklist.BestAvailableIsUnique | src/agent/agent_internal.rs:189-207 | At most one position is the best available one, so the selection is fully determined by the checklist. |
| Agent.AgentInternal.AddPair | src/agent/agent_internal.rs:229-238 | Appends one Waiting, unnominated pair with a zero request count, prioritized for the agent's role. |
| Agent.AgentInternal.GetPairMut | src/agent/agent_internal.rs:253-264 | Returns no position iff no pair joins the two candidates. Otherwise it returns the first position whose pair joins them. |
| Agent.AgentInternal.FindPair | src/agent/agent_internal.rs:240-251 | Returns None iff no pair joins the two candidates. Otherwise it returns the first pair of the checklist that joins them. |
| Agent.AgentInternal.PingAllCandidates | src/agent/agent_internal.rs:332-367 | The checklist becomes `Checklist.Scan` of the old one. The checks started are exactly `Checklist.Queued` of the old checklist, in that order. The registry invariant is kept. |
| Checklist.ScanStepEffect | src/agent/agent_internal.rs:346-362 | A Waiting pair becomes InProgress. Succeeded and Failed pairs are untouched and not queued. An active pair whose count exceeds the cap becomes Failed, keeps its count and is not queued. Every other active pair becomes InProgress with its count raised by exactly one and is queued. Endpoints, priority and nomination never change. |
| Checklist.QueuedInChecklistOrder | src/agent/agent_internal.rs:346-362 | The queued combinations are those of the queued pairs, each exactly once, in strictly increasing checklist order. Every pair that qualifies is among them. |
| Checklist.ScanKeepsEndpoints | src/agent/agent_internal.rs:346-362 | A scan adds and removes no pair and keeps every pair's endpoints at its position. |
| Checklist.NewPairLifetime | src/agent/agent_internal.rs:353-361 | Because the cap test is `count > max`, a new pair is queued in each of the first max+1 scans. It is still InProgress after them, becomes Failed on scan max+2, and is queued max+1 times in all. |
| Checklist.ActivePairLifetime | src/agent/agent_internal.rs:346-362 | An active pair with count `c` at most max+1 is queued by each of the next max+1-c scans, staying active with its count raised by one each time. Any further scan leaves it Failed, queued max+1-c times in all. |
| Checklist.FailedPairStays | src/agent/agent_internal.rs:349-350 | A Failed pair stays Failed, unchanged and never queued, under any number of scans. |
| Checklist.ScanKeepsRegistry | src/agent/agent_internal.rs:346-362 | A scan preserves the registry invariant. |
| Agent.AgentInternal.InvalidatePendingBindingRequests | src/agent/agent_internal.rs:428-446 | The records become `Transactions.Prune` of the old ones at the filter time. |
| Transactions.PruneKeepsLive | src/agent/agent_internal.rs:432-436 | Pruning keeps exactly the records younger than the transaction timeout. |
| Transactions.PruneConcat | src/agent/agent_internal.rs:432-436 | Pruning works record by record and keeps the records' order. |
| Transactions.PruneLater | src/agent/agent_internal.rs:428-438 | Pruning at one time and then at a later time is pruning at the later time, so repeated pruning is idempotent. |
| Agent.AgentInternal.SendBindingRequest | src/agent/agent_internal.rs:369-386 | The records are pruned at `now` and then get one new record with the message's transaction id, the remote address and whether USE-CANDIDATE is present. The message is sent from the local to the remote candidate. |
| Agent.AgentInternal.SendStun | src/agent/agent_internal.rs:448-457 | Exactly one message is written from the local to the remote candidate. |
| Agent.AgentInternal.HandleInboundBindingSuccess | src/agent/agent_internal.rs:461-473 | The pair (result, records) equals `Transactions.Resolve` of the old records: prune, then take out and return the first surviving record with the id. |
| Transactions.ResolveEffect | src/agent/agent_internal.rs:461-473 | Returns None iff no surviving record has the id, leaving the pruned records. Otherwise the record returned has the id, was pending and live, and exactly it is removed from the pruned records, all others kept. |
| Transactions.ResolveWithinTimeout | src/agent/agent_internal.rs:377-383 | A request recorded at `t` with an id no other record carries is matched by a response at `t2` iff `t2 - t` is below the timeout. |
| Transactions.ResolveAtMostOnce | src/agent/agent_internal.rs:461-473 | When at most one record carries an id, a second response with that id at the same or a later time matches nothing. |
| Agent.AgentInternal.FindRemoteCandidate | src/agent/agent_internal.rs:575-590 | Returns `CandidateMaps.Lookup`: the first remote candidate at the address under the given network type, or None iff there is none. |
| CandidateMaps.Lookup | src/agent/agent_internal.rs:580-589 | None iff no candidate in the network type's list is at the address. Otherwise the result is in that list and at the address. |
| CandidateMaps.FirstAt | src/agent/agent_internal.rs:583-587 | Returns None iff no candidate is at the address. Otherwise it returns the first position holding one. |
| Agent.AgentInternal.AddRemoteCandidate | src/agent/agent_internal.rs:592-620 | The remote map and checklist become `Checklist.Admit` of the old ones, and the registry invariant is kept. |
| Checklist.AdmitEffect | src/agent/agent_internal.rs:593-617 | When an equal candidate of that network type is already kept, nothing changes. Otherwise the candidate is appended once to its network type's list with other lists untouched. Then one Waiting pair (l, c) is appended for each local candidate l of that type, in order, after the old pairs. |
| Checklist.AdmitIsIdempotent | src/agent/agent_internal.rs:596-602 | Admitting the same candidate twice is admitting it once. |
| Checklist.AdmitKeepsRegistry | src/agent/agent_internal.rs:593-617 | Admission preserves the registry invariant, including no duplicate pairs. |
| CandidateMaps.InsertKeepsInvariants | src/agent/agent_internal.rs:604-608 | Appending a candidate to its network type's list keeps keys matching network types. It keeps lists duplicate-free when the candidate is new, and the candidate is the only one added. |
| Agent.AgentInternal.HandleInbound | src/agent/agent_internal.rs:476-573 | Screened-out messages change nothing and mark nothing seen, as do success responses failing integrity against the remote password or coming from an unknown remote. A request failing the username check or integrity against the local password changes nothing either, and so does one from an unknown sender when no peer-reflexive candidate can be built. Otherwise a request admits as in `Inbound.RequestAdmission`, is handed to the request handler and marks its candidate seen, by value (see the HandleInbound line under Left out for the copy built on a repeat). A success response is handed to its handler and marks the sender seen. An indication only marks a known sender seen, without any check. |
| Inbound.ScreenPassesExactly | src/agent/agent_internal.rs:482-508 | A message passes the screen iff it is a Binding request, indication or success response. It must also carry no ICE-CONTROLLING and no USE-CANDIDATE for a controlling agent, and no ICE-CONTROLLED for a controlled one. It is dropped as unhandled iff its method is not Binding or it is an error response. |
| Inbound.Username | src/agent/agent_internal.rs:524 | The expected username is the local fragment, a colon and the remote fragment. |
| Inbound.UnknownSenderIsAdmitted | src/agent/agent_internal.rs:534-561 | An authenticated request from an unknown sender admits exactly one peer-reflexive candidate under UDP4, at the sender's address and with the local candidate's component. It appends one Waiting pair per local UDP4 candidate. Later lookups on a UDP4 local candidate find it, and lookups on a local candidate of another type still miss it. |
| Inbound.RepeatedRequestAdmitsNothing | src/agent/agent_internal.rs:534-561 | Repeating the same request changes neither the remote candidates nor the checklist. |

## Left out

- Network I/O: writing to sockets (`send_stun`, `write_to`) and closing candidate sockets are appends to ghost logs; their failures are only logged by the source.
- `send_binding_success` is left out: it only builds a STUN message (XOR-MAPPED-ADDRESS, MESSAGE-INTEGRITY, FINGERPRINT) and sends it, and STUN encoding is not modelled.
- STUN encoding and checks: `assert_inbound_message_integrity` and `assert_inbound_username` are the parameters `integrityOk` and `usernameOk`. The model records which key and which username each check uses.
- Peer-reflexive construction: whether `new_candidate_peer_reflexive` succeeds is the parameter `prflxOk`.
- `ping_candidate`, `handle_success_response`, `handle_binding_request` and the candidate's `seen` are defined outside `src/agent/agent_internal.rs`, so each call is recorded in a ghost log and has no other effect in the model.
- `CandidatePair::new` and `priority()` are not part of this model. The pair priority is the parameter `priorityOf` of the agent, and the pair's fields are a datatype.
- Candidate equality (`Candidate::equal`) is structural equality of the candidate datatype.
- Transactions.MAX_BINDING_REQUEST_TIMEOUT is defined outside `src/agent/agent_internal.rs`. The model fixes it at 4000 ms, and no lemma depends on its value.
- Clocks (`SystemTime::now`, `Instant::now`, `last_sent`, `last_received`) are parameters. `Duration` addition overflow in `validate_selected_pair` is not modelled.
- Checklist.NewPairLifetime: the request count and `max_binding_requests` are unbounded naturals. The count is a 16-bit integer in the source, so its increment would overflow only when `max_binding_requests` is 65535, which is not modelled.
- Channels, callbacks and handler closures are ghost notification logs, gated by whether a channel is attached; capacity and blocking are not modelled.
- Concurrency, locking and `async` scheduling are left out: every method runs to completion alone.
- Logging, mDNS, lite mode, the forced-contact channel, port ranges, acceptance waits, URLs, the external IP mapper, the interface filter and the other configuration fields are left out, because the modelled operations never read them.
- `get_selected_pair` is a field read and needs no model.
- Agent.AgentInternal.SetSelectedPair: the source takes the pair by value, so the stored pair's relation to the checklist is lost. The model states that the checklist is unchanged, not that the selected pair is in it.
- Agent.AgentInternal.HandleInbound: a request from an unknown sender received on a non-UDP4 local candidate admits a UDP4 candidate, which later lookups on that local candidate do not find (see Inbound.UnknownSenderIsAdmitted). The model keeps this behaviour of the code. On a repeat of such a request the source builds a fresh peer-reflexive candidate object. Admission refuses it as equal to the stored one, yet the request handler and the seen mark act on that fresh copy, which is then dropped, so the stored candidate is not marked seen. The model compares candidates by value and cannot tell the copy from the stored candidate, so its `seen` log records the stored candidate's value in that case.
- Agent.AgentInternal.HandleInbound, Agent.AgentInternal.PingAllCandidates, Agent.AgentInternal.CheckKeepalive: `handle_success_response`, `handle_binding_request` and `ping_candidate` take the agent mutably and may change its candidates, checklist, pending requests or session state. Their effects are not modelled. So the conjuncts saying the remote candidates, the checklist or the pending requests are unchanged, or equal `Inbound.RequestAdmission`, describe only the dispatcher's and the scheduler's own steps, before and apart from those calls.
- Agent.AgentInternal.constructor: the local candidates are fixed when the agent is built. In the program, gathering adds local candidates later and pairs them with the remote ones, outside `src/agent/agent_internal.rs`; that path is not modelled. The registry invariant's clause that a pair's remote candidate is kept whenever its local one is relies on this: it could fail if a local candidate were added back after both maps were emptied, while the checklist still held its old pairs.
