/** The threshold rules that keep the selected pair under watch: the
    session state that the silence of the remote side calls for, and when
    a keepalive check is due. Durations are in milliseconds. */
module Liveness {
  import opened IceTypes

  /** The state validation moves the agent to when the selected pair's
      remote side was last heard from `elapsed` ago. A failed timeout of
      zero never fails the session; a disconnected timeout of zero never
      disconnects it. */
  function ValidationTarget(elapsed: nat, disconnectedTimeout: nat, failedTimeout: nat): ConnectionState {
    var totalTimeToFailure := if failedTimeout != 0 then failedTimeout + disconnectedTimeout else failedTimeout;
    if totalTimeToFailure != 0 && elapsed > totalTimeToFailure then ConnectionState.Failed
    else if disconnectedTimeout != 0 && elapsed > disconnectedTimeout then ConnectionState.Disconnected
    else ConnectionState.Connected
  }

  /** The three tiers in closed form: Failed once the silence exceeds the
      failed timeout on top of the disconnected one, Disconnected once it
      exceeds the disconnected timeout alone, Connected otherwise; a zero
      timeout switches its tier off. */
  lemma ValidationTiers(elapsed: nat, disconnectedTimeout: nat, failedTimeout: nat)
    ensures var s := ValidationTarget(elapsed, disconnectedTimeout, failedTimeout);
      (s == ConnectionState.Failed <==> failedTimeout != 0 && elapsed > failedTimeout + disconnectedTimeout) &&
      (s == ConnectionState.Disconnected <==>
        !(failedTimeout != 0 && elapsed > failedTimeout + disconnectedTimeout) &&
        disconnectedTimeout != 0 && elapsed > disconnectedTimeout) &&
      (s == ConnectionState.Connected <==>
        (failedTimeout == 0 || elapsed <= failedTimeout + disconnectedTimeout) &&
        (disconnectedTimeout == 0 || elapsed <= disconnectedTimeout))
  {
  }

  /** How bad a validation outcome is. */
  function Severity(s: ConnectionState): nat {
    match s
    case Failed => 2
    case Disconnected => 1
    case _ => 0
  }

  /** Longer silence never yields a better state. */
  lemma ValidationIsMonotone(e1: nat, e2: nat, disconnectedTimeout: nat, failedTimeout: nat)
    requires e1 <= e2
    ensures Severity(ValidationTarget(e1, disconnectedTimeout, failedTimeout)) <=
            Severity(ValidationTarget(e2, disconnectedTimeout, failedTimeout))
  {
  }

  /** With a 5 s disconnected timeout and a 10 s failed timeout the failure
      budget is 15 s: silent for 4 s is Connected, for 6 s or 12 s
      Disconnected, for 16 s Failed. */
  lemma ValidationExample()
    ensures ValidationTarget(4000, 5000, 10000) == ConnectionState.Connected
    ensures ValidationTarget(6000, 5000, 10000) == ConnectionState.Disconnected
    ensures ValidationTarget(12000, 5000, 10000) == ConnectionState.Disconnected
    ensures ValidationTarget(16000, 5000, 10000) == ConnectionState.Failed
  {
  }

  /** A keepalive check is due when keepalives are switched on and either
      nothing was sent or nothing was received for longer than the
      interval. */
  predicate KeepaliveDue(keepaliveInterval: nat, sinceSent: nat, sinceReceived: nat) {
    keepaliveInterval != 0 && (sinceSent > keepaliveInterval || sinceReceived > keepaliveInterval)
  }

  /** A zero interval never pings, and once a keepalive is due it stays due
      as the idle times grow. */
  lemma KeepaliveIsMonotone(keepaliveInterval: nat, s1: nat, r1: nat, s2: nat, r2: nat)
    requires s1 <= s2 && r1 <= r2
    ensures !KeepaliveDue(0, s1, r1)
    ensures KeepaliveDue(keepaliveInterval, s1, r1) ==> KeepaliveDue(keepaliveInterval, s2, r2)
  {
  }
}
