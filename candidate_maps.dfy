/** The agent keeps its local and its remote candidates in maps from a
    network type to the ordered list of candidates of that type. */
module CandidateMaps {
  import opened IceTypes

  type CandidateMap = map<NetworkType, seq<Candidate>>

  /** The candidates kept under `nt`; empty when the key is absent. */
  function ListFor(m: CandidateMap, nt: NetworkType): seq<Candidate> {
    if nt in m then m[nt] else []
  }

  /** `c` is kept under its own network type. */
  ghost predicate Registered(m: CandidateMap, c: Candidate) {
    c in ListFor(m, c.networkType)
  }

  /** Every list holds only candidates of its key's network type. */
  ghost predicate KeysMatch(m: CandidateMap) {
    forall nt, i :: nt in m && 0 <= i < |m[nt]| ==> m[nt][i].networkType == nt
  }

  ghost predicate Distinct(s: seq<Candidate>) {
    forall i, j :: 0 <= i < j < |s| ==> s[i] != s[j]
  }

  /** A duplicate-free list holds each of its candidates exactly once. */
  lemma {:induction false} DistinctCounts(s: seq<Candidate>)
    requires Distinct(s)
    ensures forall c :: multiset(s)[c] == if c in s then 1 else 0
  {
    if s != [] {
      var t := s[..|s| - 1];
      assert s == t + [s[|s| - 1]];
      assert Distinct(t);
      DistinctCounts(t);
    }
  }

  /** No list holds the same candidate twice. */
  ghost predicate ListsDistinct(m: CandidateMap) {
    forall nt :: nt in m ==> Distinct(m[nt])
  }

  /** `m` with `c` appended to the list of its network type, the list
      being created when the key is absent. */
  function Insert(m: CandidateMap, c: Candidate): CandidateMap {
    m[c.networkType := ListFor(m, c.networkType) + [c]]
  }

  /** Inserting a candidate that is not yet kept keeps both map
      invariants, adds exactly that candidate and leaves the other
      network types alone. */
  lemma InsertKeepsInvariants(m: CandidateMap, c: Candidate)
    requires KeysMatch(m) && ListsDistinct(m) && !Registered(m, c)
    ensures KeysMatch(Insert(m, c)) && ListsDistinct(Insert(m, c))
    ensures ListFor(Insert(m, c), c.networkType) == ListFor(m, c.networkType) + [c]
    ensures forall nt :: nt != c.networkType ==> ListFor(Insert(m, c), nt) == ListFor(m, nt)
    ensures forall d :: Registered(Insert(m, c), d) <==> Registered(m, d) || d == c
  {
  }

  /** The index of the first candidate in `cs` reachable at `addr`. */
  function FirstAt(cs: seq<Candidate>, addr: SocketAddr): (r: Option<nat>)
    ensures r.None? <==> forall i :: 0 <= i < |cs| ==> cs[i].Addr() != addr
    ensures r.Some? ==> r.value < |cs| && cs[r.value].Addr() == addr
    ensures r.Some? ==> forall j :: 0 <= j < r.value ==> cs[j].Addr() != addr
  {
    if cs == [] then None
    else if cs[0].Addr() == addr then Some(0)
    else match FirstAt(cs[1..], addr)
      case None => None
      case Some(i) => Some(i + 1)
  }

  /** The first remote candidate of network type `nt` reachable at `addr`,
      as the lookup of an inbound message's sender finds it. */
  function Lookup(m: CandidateMap, nt: NetworkType, addr: SocketAddr): (r: Option<Candidate>)
    ensures r.None? <==> forall c :: c in ListFor(m, nt) ==> c.Addr() != addr
    ensures r.Some? ==> r.value in ListFor(m, nt) && r.value.Addr() == addr
  {
    match FirstAt(ListFor(m, nt), addr)
    case None => None
    case Some(i) => Some(ListFor(m, nt)[i])
  }
}
