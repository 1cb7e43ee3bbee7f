/** The transaction tracker: the records of outbound binding requests that
    wait for a response, pruned once they are older than the transaction
    timeout of Appendix B.1 of RFC 8445, and consumed at most once by the
    success response that carries their transaction id. */
module Transactions {
  import opened IceTypes

  /** How long a binding request is remembered, in milliseconds. */
  const MAX_BINDING_REQUEST_TIMEOUT: nat := 4000

  /** The time from `since` to `now`; zero when `since` is the later one,
      as a monotonic clock's duration saturates. */
  function Age(now: nat, since: nat): nat {
    if since <= now then now - since else 0
  }

  /** A record that pruning at `now` keeps. */
  predicate Live(r: BindingRequest, now: nat) {
    Age(now, r.timestamp) < MAX_BINDING_REQUEST_TIMEOUT
  }

  /** The records pruning at `now` keeps, in their order. */
  function Prune(rs: seq<BindingRequest>, now: nat): seq<BindingRequest> {
    if rs == [] then []
    else (if Live(rs[0], now) then [rs[0]] else []) + Prune(rs[1..], now)
  }

  /** Pruning works record by record and keeps the order: it distributes
      over concatenation (with the one-record case given by `Live`, this
      pins it down as the order-preserving filter). */
  lemma {:induction false} PruneConcat(a: seq<BindingRequest>, b: seq<BindingRequest>, now: nat)
    ensures Prune(a + b, now) == Prune(a, now) + Prune(b, now)
  {
    if a == [] {
      assert a + b == b;
    } else {
      assert (a + b)[1..] == a[1..] + b;
      PruneConcat(a[1..], b, now);
    }
  }

  /** Pruning keeps exactly the records younger than the timeout. */
  lemma {:induction false} PruneKeepsLive(rs: seq<BindingRequest>, now: nat)
    ensures forall r :: r in Prune(rs, now) <==> r in rs && Live(r, now)
  {
    if rs != [] {
      PruneKeepsLive(rs[1..], now);
      assert forall r :: r in rs <==> r == rs[0] || r in rs[1..];
    }
  }

  /** Pruning at `t1` and then at a later `t2` is pruning at `t2`; in
      particular pruning twice at the same time is pruning once. */
  lemma {:induction false} PruneLater(rs: seq<BindingRequest>, t1: nat, t2: nat)
    requires t1 <= t2
    ensures Prune(Prune(rs, t1), t2) == Prune(rs, t2)
  {
    if rs != [] {
      var head := if Live(rs[0], t1) then [rs[0]] else [];
      PruneConcat(head, Prune(rs[1..], t1), t2);
      PruneLater(rs[1..], t1, t2);
      if Live(rs[0], t2) {
        assert Live(rs[0], t1);
        assert Prune(head, t2) == [rs[0]];
      } else if head != [] {
        assert Prune(head, t2) == [];
      }
    }
  }

  /** The record list after a binding request with `id` is sent at `now`:
      pruned, then the new record appended. */
  function Record(rs: seq<BindingRequest>, now: nat, id: TransactionId, destination: SocketAddr,
                  isUseCandidate: bool): seq<BindingRequest>
  {
    Prune(rs, now) + [BindingRequest(now, id, destination, isUseCandidate)]
  }

  /** The position of the first record carrying `id`. */
  function FirstWithId(rs: seq<BindingRequest>, id: TransactionId): (r: Option<nat>)
    ensures r.None? <==> forall i :: 0 <= i < |rs| ==> rs[i].transactionId != id
    ensures r.Some? ==> r.value < |rs| && rs[r.value].transactionId == id
    ensures r.Some? ==> forall j :: 0 <= j < r.value ==> rs[j].transactionId != id
  {
    if rs == [] then None
    else if rs[0].transactionId == id then Some(0)
    else match FirstWithId(rs[1..], id)
      case None => None
      case Some(i) => Some(i + 1)
  }

  /** A success response with `id` arriving at `now`: the records are
      pruned, and the first surviving record with that id is taken out and
      returned. */
  function Resolve(rs: seq<BindingRequest>, id: TransactionId, now: nat): (Option<BindingRequest>, seq<BindingRequest>)
  {
    var live := Prune(rs, now);
    match FirstWithId(live, id)
    case None => (None, live)
    case Some(i) => (Some(live[i]), live[..i] + live[i + 1..])
  }

  /** How many records carry `id`. */
  function Occurrences(rs: seq<BindingRequest>, id: TransactionId): nat {
    if rs == [] then 0
    else (if rs[0].transactionId == id then 1 else 0) + Occurrences(rs[1..], id)
  }

  lemma {:induction false} OccurrencesConcat(a: seq<BindingRequest>, b: seq<BindingRequest>, id: TransactionId)
    ensures Occurrences(a + b, id) == Occurrences(a, id) + Occurrences(b, id)
  {
    if a == [] {
      assert a + b == b;
    } else {
      assert (a + b)[1..] == a[1..] + b;
      OccurrencesConcat(a[1..], b, id);
    }
  }

  lemma {:induction false} OccurrencesZero(rs: seq<BindingRequest>, id: TransactionId)
    ensures Occurrences(rs, id) == 0 <==> forall i :: 0 <= i < |rs| ==> rs[i].transactionId != id
  {
    if rs != [] {
      OccurrencesZero(rs[1..], id);
      assert forall i :: 1 <= i < |rs| ==> rs[i] == rs[1..][i - 1];
    }
  }

  lemma {:induction false} PruneOccurrences(rs: seq<BindingRequest>, id: TransactionId, now: nat)
    ensures Occurrences(Prune(rs, now), id) <= Occurrences(rs, id)
  {
    if rs != [] {
      var head := if Live(rs[0], now) then [rs[0]] else [];
      OccurrencesConcat(head, Prune(rs[1..], now), id);
      PruneOccurrences(rs[1..], id, now);
      if head != [] {
        assert head[1..] == [];
      }
    }
  }

  /** Resolution finds a record exactly when a record with `id` survives
      pruning; the record found carries `id` and was pending and live; all
      other surviving records stay, in order; and exactly one record with
      `id` is consumed. */
  lemma ResolveEffect(rs: seq<BindingRequest>, id: TransactionId, now: nat)
    ensures var (found, rest) := Resolve(rs, id, now);
      var live := Prune(rs, now);
      (found.None? <==> forall r :: r in live ==> r.transactionId != id) &&
      (found.None? ==> rest == live) &&
      (found.Some? ==>
        found.value.transactionId == id && found.value in rs && Live(found.value, now) &&
        |rest| == |live| - 1 &&
        multiset(rest) + multiset{found.value} == multiset(live) &&
        Occurrences(rest, id) == Occurrences(live, id) - 1)
  {
    var live := Prune(rs, now);
    PruneKeepsLive(rs, now);
    match FirstWithId(live, id)
    case None =>
    case Some(i) =>
      assert live == live[..i] + [live[i]] + live[i + 1..];
      OccurrencesConcat(live[..i] + [live[i]], live[i + 1..], id);
      OccurrencesConcat(live[..i], [live[i]], id);
      OccurrencesConcat(live[..i], live[i + 1..], id);
      assert [live[i]][1..] == [];
  }

  /** A request recorded at `t` whose id no other record carries is found
      by a success response at `t2` exactly when `t2 - t` is below the
      timeout. */
  lemma ResolveWithinTimeout(rs: seq<BindingRequest>, t: nat, id: TransactionId, destination: SocketAddr,
                             isUseCandidate: bool, t2: nat)
    requires forall r :: r in rs ==> r.transactionId != id
    requires t <= t2
    ensures Resolve(Record(rs, t, id, destination, isUseCandidate), id, t2).0 ==
      if t2 - t < MAX_BINDING_REQUEST_TIMEOUT then Some(BindingRequest(t, id, destination, isUseCandidate)) else None
  {
    var x := BindingRequest(t, id, destination, isUseCandidate);
    var older := Prune(rs, t);
    PruneKeepsLive(rs, t);
    PruneConcat(older, [x], t2);
    PruneKeepsLive(older, t2);
    var live := Prune(older + [x], t2);
    assert forall r :: r in Prune(older, t2) ==> r.transactionId != id;
    if t2 - t < MAX_BINDING_REQUEST_TIMEOUT {
      assert Prune([x], t2) == [x];
      assert live[|live| - 1] == x;
      assert FirstWithId(live, id) == Some(|live| - 1);
    } else {
      assert Prune([x], t2) == [];
      assert live == Prune(older, t2);
    }
  }

  /** A response is honoured at most once: when at most one record carries
      `id`, a second resolution of `id`, at the same time or later, finds
      nothing after the first found a record. */
  lemma ResolveAtMostOnce(rs: seq<BindingRequest>, id: TransactionId, t1: nat, t2: nat)
    requires Occurrences(rs, id) <= 1
    requires t1 <= t2
    requires Resolve(rs, id, t1).0.Some?
    ensures Resolve(Resolve(rs, id, t1).1, id, t2).0 == None
  {
    var rest := Resolve(rs, id, t1).1;
    ResolveEffect(rs, id, t1);
    PruneOccurrences(rs, id, t1);
    PruneOccurrences(rest, id, t2);
    OccurrencesZero(Prune(rest, t2), id);
  }
}
