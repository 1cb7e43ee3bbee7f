/** The checklist: the agent's ordered list of candidate pairs, the rule
    for picking the best available pair, the connectivity-check scan that
    advances pairs and caps their retries, and the admission of a remote
    candidate with its pairs. */
module Checklist {
  import opened IceTypes
  import opened CandidateMaps

  /** The rule that gives a new pair its priority, from its local and
      remote candidate and whether the agent is controlling. */
  type PriorityRule = (Candidate, Candidate, bool) -> nat

  /** A pair as it is created: waiting, not nominated, no checks yet. */
  function NewPair(local: Candidate, remote: Candidate, priority: nat): CandidatePair {
    CandidatePair(local, remote, PairState.Waiting, false, 0, priority)
  }

  predicate Connects(p: CandidatePair, local: Candidate, remote: Candidate) {
    p.local == local && p.remote == remote
  }

  /** No two pairs join the same local and remote candidate. */
  ghost predicate NoDuplicatePairs(ps: seq<CandidatePair>) {
    forall i, j :: 0 <= i < j < |ps| ==> !Connects(ps[j], ps[i].local, ps[i].remote)
  }

  // ---------------------------------------------------------------------
  // Best available pair

  /** `b` is the pair the agent reports as best available: it is not
      Failed, no pair that is not Failed has a higher priority, and every
      earlier pair that is not Failed has a strictly lower priority (the
      first of equal-priority pairs wins). */
  ghost predicate IsBestAvailable(ps: seq<CandidatePair>, b: nat) {
    b < |ps| && ps[b].state != PairState.Failed &&
    (forall j :: 0 <= j < |ps| && ps[j].state != PairState.Failed ==> ps[j].priority <= ps[b].priority) &&
    (forall j :: 0 <= j < b && ps[j].state != PairState.Failed ==> ps[j].priority < ps[b].priority)
  }

  /** At most one pair is the best available one. */
  lemma BestAvailableIsUnique(ps: seq<CandidatePair>, a: nat, b: nat)
    requires IsBestAvailable(ps, a) && IsBestAvailable(ps, b)
    ensures a == b
  {
  }

  // ---------------------------------------------------------------------
  // Connectivity-check scan

  /** A pair the scan still works on. */
  predicate Active(p: CandidatePair) {
    p.state == PairState.Waiting || p.state == PairState.InProgress
  }

  /** The scan queues a check for `p`: it is active and has not yet gone
      over the request cap. */
  predicate Queues(p: CandidatePair, maxRequests: nat) {
    Active(p) && p.bindingRequestCount <= maxRequests
  }

  /** What one scan does to one pair. */
  function ScanStep(p: CandidatePair, maxRequests: nat): CandidatePair {
    if !Active(p) then p
    else if p.bindingRequestCount > maxRequests then p.(state := PairState.Failed)
    else p.(state := PairState.InProgress, bindingRequestCount := p.bindingRequestCount + 1)
  }

  /** The checklist after one scan. */
  function Scan(ps: seq<CandidatePair>, maxRequests: nat): seq<CandidatePair> {
    seq(|ps|, i requires 0 <= i < |ps| => ScanStep(ps[i], maxRequests))
  }

  function Endpoints(p: CandidatePair): (Candidate, Candidate) {
    (p.local, p.remote)
  }

  /** The (local, remote) combinations one scan queues for checking. */
  function Queued(ps: seq<CandidatePair>, maxRequests: nat): seq<(Candidate, Candidate)> {
    if ps == [] then []
    else (if Queues(ps[0], maxRequests) then [Endpoints(ps[0])] else []) + Queued(ps[1..], maxRequests)
  }

  /** The effect of one scan on a single pair: Succeeded and Failed pairs
      are untouched and not queued; an active pair over the cap becomes
      Failed with its count kept and is not queued; any other active pair
      becomes InProgress with its count one higher and is queued. Only
      state and count ever change. */
  lemma ScanStepEffect(p: CandidatePair, maxRequests: nat)
    ensures var q := ScanStep(p, maxRequests);
      q.local == p.local && q.remote == p.remote && q.priority == p.priority && q.nominated == p.nominated
    ensures !Active(p) ==> ScanStep(p, maxRequests) == p && !Queues(p, maxRequests)
    ensures Active(p) && p.bindingRequestCount > maxRequests ==>
      ScanStep(p, maxRequests).state == PairState.Failed &&
      ScanStep(p, maxRequests).bindingRequestCount == p.bindingRequestCount &&
      !Queues(p, maxRequests)
    ensures Queues(p, maxRequests) ==>
      ScanStep(p, maxRequests).state == PairState.InProgress &&
      ScanStep(p, maxRequests).bindingRequestCount == p.bindingRequestCount + 1
    ensures p.state == PairState.Failed ==> ScanStep(p, maxRequests).state == PairState.Failed
  {
  }

  lemma {:induction false} QueuedAppend(ps: seq<CandidatePair>, p: CandidatePair, maxRequests: nat)
    ensures Queued(ps + [p], maxRequests) ==
      Queued(ps, maxRequests) + (if Queues(p, maxRequests) then [Endpoints(p)] else [])
  {
    if ps == [] {
      assert ps + [p] == [p];
    } else {
      assert (ps + [p])[1..] == ps[1..] + [p];
      QueuedAppend(ps[1..], p, maxRequests);
    }
  }

  /** One scan queues one check for each pair it queues for, and nothing
      else, in checklist order: the queue is the endpoints of the pairs at
      increasing indices `idx`, and these are exactly the pairs for which
      `Queues` holds. */
  lemma {:induction false} QueuedInChecklistOrder(ps: seq<CandidatePair>, maxRequests: nat) returns (idx: seq<nat>)
    ensures |idx| == |Queued(ps, maxRequests)|
    ensures forall k :: 0 <= k < |idx| ==>
      idx[k] < |ps| && Queues(ps[idx[k]], maxRequests) && Queued(ps, maxRequests)[k] == Endpoints(ps[idx[k]])
    ensures forall k, l :: 0 <= k < l < |idx| ==> idx[k] < idx[l]
    ensures forall i :: 0 <= i < |ps| && Queues(ps[i], maxRequests) ==> i in idx
  {
    if ps == [] {
      idx := [];
    } else {
      var n := |ps| - 1;
      var init, last := ps[..n], ps[n];
      assert ps == init + [last];
      QueuedAppend(init, last, maxRequests);
      var pre := QueuedInChecklistOrder(init, maxRequests);
      assert forall k :: 0 <= k < |pre| ==> ps[pre[k]] == init[pre[k]];
      if Queues(last, maxRequests) {
        idx := pre + [n];
      } else {
        idx := pre;
      }
      forall i | 0 <= i < |ps| && Queues(ps[i], maxRequests)
        ensures i in idx
      {
        if i < n {
          assert init[i] == ps[i];
        } else {
          assert idx[|pre|] == i;
        }
      }
    }
  }

  /** The scan never adds, removes or reorders pairs, and never changes a
      pair's candidates. */
  lemma ScanKeepsEndpoints(ps: seq<CandidatePair>, maxRequests: nat)
    ensures |Scan(ps, maxRequests)| == |ps|
    ensures forall i :: 0 <= i < |ps| ==> Scan(ps, maxRequests)[i].local == ps[i].local
    ensures forall i :: 0 <= i < |ps| ==> Scan(ps, maxRequests)[i].remote == ps[i].remote
  {
  }

  /** A pair scanned `n` times, with no check result arriving between. */
  function ScanTimes(p: CandidatePair, maxRequests: nat, n: nat): CandidatePair
    decreases n
  {
    if n == 0 then p else ScanTimes(ScanStep(p, maxRequests), maxRequests, n - 1)
  }

  /** How many checks those `n` scans queue for the pair. */
  function TimesQueued(p: CandidatePair, maxRequests: nat, n: nat): nat
    decreases n
  {
    if n == 0 then 0
    else (if Queues(p, maxRequests) then 1 else 0) + TimesQueued(ScanStep(p, maxRequests), maxRequests, n - 1)
  }

  /** An active pair whose count `c` is at most `maxRequests + 1` is queued
      by each of the next `maxRequests + 1 - c` scans, and the scan after
      those marks it Failed; from then on it stays Failed and is never
      queued again. */
  lemma {:induction false} ActivePairLifetime(p: CandidatePair, maxRequests: nat, n: nat)
    requires Active(p) && p.bindingRequestCount <= maxRequests + 1
    ensures n <= maxRequests + 1 - p.bindingRequestCount ==>
      TimesQueued(p, maxRequests, n) == n &&
      ScanTimes(p, maxRequests, n).bindingRequestCount == p.bindingRequestCount + n &&
      Active(ScanTimes(p, maxRequests, n))
    ensures n > maxRequests + 1 - p.bindingRequestCount ==>
      TimesQueued(p, maxRequests, n) == maxRequests + 1 - p.bindingRequestCount &&
      ScanTimes(p, maxRequests, n).state == PairState.Failed
    decreases n
  {
    if n > 0 {
      var q := ScanStep(p, maxRequests);
      if p.bindingRequestCount > maxRequests {
        FailedPairStays(q, maxRequests, n - 1);
      } else {
        ActivePairLifetime(q, maxRequests, n - 1);
      }
    }
  }

  /** A Failed pair is left alone by every later scan. */
  lemma {:induction false} FailedPairStays(p: CandidatePair, maxRequests: nat, n: nat)
    requires p.state == PairState.Failed
    ensures ScanTimes(p, maxRequests, n) == p && TimesQueued(p, maxRequests, n) == 0
    decreases n
  {
    if n > 0 {
      FailedPairStays(ScanStep(p, maxRequests), maxRequests, n - 1);
    }
  }

  /** A new pair is queued by exactly `maxRequests + 1` scans, not
      `maxRequests`: the cap test lets a count equal to the cap through.
      It becomes Failed on scan `maxRequests + 2` and never earlier. */
  lemma NewPairLifetime(p: CandidatePair, maxRequests: nat)
    requires p.state == PairState.Waiting && p.bindingRequestCount == 0
    ensures TimesQueued(p, maxRequests, maxRequests + 1) == maxRequests + 1
    ensures ScanTimes(p, maxRequests, maxRequests + 1).state == PairState.InProgress
    ensures ScanTimes(p, maxRequests, maxRequests + 2).state == PairState.Failed
    ensures TimesQueued(p, maxRequests, maxRequests + 2) == maxRequests + 1
  {
    ActivePairLifetime(p, maxRequests, maxRequests + 1);
    ActivePairLifetime(p, maxRequests, maxRequests + 2);
    ScanTimesShape(p, maxRequests, maxRequests + 1);
  }

  /** Scanning an active pair `n > 0` times that are all queued leaves it
      InProgress. */
  lemma {:induction false} ScanTimesShape(p: CandidatePair, maxRequests: nat, n: nat)
    requires Active(p) && 0 < n && p.bindingRequestCount + n <= maxRequests + 1
    ensures ScanTimes(p, maxRequests, n).state == PairState.InProgress
    decreases n
  {
    if n > 1 {
      ScanTimesShape(ScanStep(p, maxRequests), maxRequests, n - 1);
    }
  }

  // ---------------------------------------------------------------------
  // Admission of a remote candidate

  /** One new pair for each local candidate, in order, all with `remote`. */
  function PairsWith(locals: seq<Candidate>, remote: Candidate, priorityOf: PriorityRule, controlling: bool): seq<CandidatePair> {
    seq(|locals|, k requires 0 <= k < |locals| => NewPair(locals[k], remote, priorityOf(locals[k], remote, controlling)))
  }

  /** The remote candidates and the checklist after admitting `c`: nothing
      changes when an equal candidate is already kept under its network
      type; otherwise `c` is appended under that type and paired with
      every local candidate of the same type. */
  function Admit(locals: CandidateMap, remotes: CandidateMap, ps: seq<CandidatePair>, c: Candidate,
                 priorityOf: PriorityRule, controlling: bool): (CandidateMap, seq<CandidatePair>)
  {
    if c in ListFor(remotes, c.networkType) then (remotes, ps)
    else (Insert(remotes, c), ps + PairsWith(ListFor(locals, c.networkType), c, priorityOf, controlling))
  }

  /** What admission does: on a new candidate exactly one copy is appended
      to its list, and exactly one Waiting pair is appended per local
      candidate of the same network type, in their order; a known
      candidate changes nothing. */
  lemma AdmitEffect(locals: CandidateMap, remotes: CandidateMap, ps: seq<CandidatePair>, c: Candidate,
                    priorityOf: PriorityRule, controlling: bool)
    ensures c in ListFor(remotes, c.networkType) ==>
      Admit(locals, remotes, ps, c, priorityOf, controlling) == (remotes, ps)
    ensures c !in ListFor(remotes, c.networkType) ==>
      var (r, q) := Admit(locals, remotes, ps, c, priorityOf, controlling);
      var ls := ListFor(locals, c.networkType);
      ListFor(r, c.networkType) == ListFor(remotes, c.networkType) + [c] &&
      (forall nt :: nt != c.networkType ==> ListFor(r, nt) == ListFor(remotes, nt)) &&
      |q| == |ps| + |ls| && q[..|ps|] == ps &&
      (forall k :: 0 <= k < |ls| ==>
        Connects(q[|ps| + k], ls[k], c) && q[|ps| + k].state == PairState.Waiting &&
        q[|ps| + k].bindingRequestCount == 0 && !q[|ps| + k].nominated)
  {
    if c !in ListFor(remotes, c.networkType) {
      var ls := ListFor(locals, c.networkType);
      var pw := PairsWith(ls, c, priorityOf, controlling);
      forall k | 0 <= k < |ls|
        ensures (ps + pw)[|ps| + k] == pw[k] == NewPair(ls[k], c, priorityOf(ls[k], c, controlling))
      {
      }
    }
  }

  /** Admitting the same candidate a second time changes nothing. */
  lemma AdmitIsIdempotent(locals: CandidateMap, remotes: CandidateMap, ps: seq<CandidatePair>, c: Candidate,
                          priorityOf: PriorityRule, controlling: bool)
    ensures var (r, q) := Admit(locals, remotes, ps, c, priorityOf, controlling);
      Admit(locals, r, q, c, priorityOf, controlling) == (r, q)
  {
    var (r, q) := Admit(locals, remotes, ps, c, priorityOf, controlling);
    assert ListFor(Insert(remotes, c), c.networkType)[|ListFor(remotes, c.networkType)|] == c;
  }

  // ---------------------------------------------------------------------
  // Registry invariant

  /** A pair whose local candidate is still kept also has its remote
      candidate kept. */
  ghost predicate PairsRegistered(locals: CandidateMap, remotes: CandidateMap, ps: seq<CandidatePair>) {
    forall i :: 0 <= i < |ps| && Registered(locals, ps[i].local) ==> Registered(remotes, ps[i].remote)
  }

  /** The invariant the candidate maps and the checklist keep together:
      both maps are well keyed and free of repeats, and the checklist has
      no two pairs for the same combination. */
  ghost predicate RegistryValid(locals: CandidateMap, remotes: CandidateMap, ps: seq<CandidatePair>) {
    KeysMatch(locals) && KeysMatch(remotes) && ListsDistinct(locals) && ListsDistinct(remotes) &&
    PairsRegistered(locals, remotes, ps) && NoDuplicatePairs(ps)
  }

  /** Admission keeps the registry invariant; in particular the eager
      pairing never creates a pair that already exists. */
  lemma AdmitKeepsRegistry(locals: CandidateMap, remotes: CandidateMap, ps: seq<CandidatePair>, c: Candidate,
                           priorityOf: PriorityRule, controlling: bool)
    requires RegistryValid(locals, remotes, ps)
    ensures var (r, q) := Admit(locals, remotes, ps, c, priorityOf, controlling);
      RegistryValid(locals, r, q)
  {
    if c !in ListFor(remotes, c.networkType) {
      var r := Insert(remotes, c);
      var ls := ListFor(locals, c.networkType);
      var pw := PairsWith(ls, c, priorityOf, controlling);
      var q := ps + pw;
      forall k | 0 <= k < |pw|
        ensures q[|ps| + k] == pw[k] && pw[k].local == ls[k] && pw[k].remote == c
      {
        assert pw[k] == NewPair(ls[k], c, priorityOf(ls[k], c, controlling));
      }
      InsertKeepsInvariants(remotes, c);
      forall i | 0 <= i < |q| && Registered(locals, q[i].local)
        ensures Registered(r, q[i].remote)
      {
        if i < |ps| {
          assert q[i] == ps[i];
        } else {
          assert q[i] == pw[i - |ps|];
        }
      }
      forall i, j | 0 <= i < j < |q|
        ensures !Connects(q[j], q[i].local, q[i].remote)
      {
        if j >= |ps| && i < |ps| {
          assert q[j] == pw[j - |ps|] && q[i] == ps[i];
          assert Registered(locals, q[j].local);
        } else if i >= |ps| {
          assert q[i] == pw[i - |ps|] && q[j] == pw[j - |ps|];
        }
      }
    }
  }

  /** The scan keeps the registry invariant. */
  lemma ScanKeepsRegistry(locals: CandidateMap, remotes: CandidateMap, ps: seq<CandidatePair>, maxRequests: nat)
    requires RegistryValid(locals, remotes, ps)
    ensures RegistryValid(locals, remotes, Scan(ps, maxRequests))
  {
    var q := Scan(ps, maxRequests);
    assert forall i :: 0 <= i < |ps| ==> q[i].local == ps[i].local && q[i].remote == ps[i].remote;
  }
}
