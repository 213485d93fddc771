/** Waiting for the VPN containers: a polling state machine driven by probe outcomes and a clock. */
module Polling {
  /** One look at a container: it exited (with a diagnosis), or it runs and its VPN is up or not. */
  datatype Probe = Exited(reason: string) | Running(connected: bool)

  datatype VpnState = Waiting | Connected | Failed(reason: string)

  datatype Command = Whitelist(i: nat) | Microsocks(i: nat) | RestartProxy

  /** Milliseconds. */
  const TIMEOUT: nat := 180_000
  const POLL_INTERVAL: nat := 5_000
  const TIMED_OUT: string := "timed out"

  /** The probe seen in each round by each container. */
  type Probes = (nat, nat) -> Probe

  /** Elapsed time at the end of each round's polling; sleeping separates rounds. */
  type Clock = nat -> nat

  ghost predicate Ticks(clock: Clock) {
    forall r: nat :: clock(r) + POLL_INTERVAL <= clock(r + 1)
  }

  function Verdict(p: Probe): VpnState {
    match p
    case Exited(reason) => Failed(reason)
    case Running(true) => Connected
    case Running(false) => Waiting
  }

  /** The state of container `i` after `rounds` rounds: the first probe that decides it. */
  function After(probe: Probes, i: nat, rounds: nat): VpnState {
    if rounds == 0 then Waiting
    else
      var s := After(probe, i, rounds - 1);
      if s == Waiting then Verdict(probe(rounds - 1, i)) else s
  }

  /** Resolved states are absorbing. */
  lemma {:induction false} ResolvedIsAbsorbing(probe: Probes, i: nat, r: nat, r': nat)
    requires r <= r' && After(probe, i, r) != Waiting
    ensures After(probe, i, r') == After(probe, i, r)
    decreases r'
  {
    if r < r' {
      ResolvedIsAbsorbing(probe, i, r, r' - 1);
    }
  }

  /** The probe that puts a container into state `s`. */
  ghost predicate Decides(p: Probe, s: VpnState) {
    (p == Running(true) && s == Connected) || (p.Exited? && s == Failed(p.reason))
  }

  /** Round `r` brings the first probe other than "running, not connected", and it puts the container into `s`. */
  ghost predicate DecidedIn(probe: Probes, i: nat, r: nat, s: VpnState) {
    Decides(probe(r, i), s) && forall q: nat :: q < r ==> probe(q, i) == Running(false)
  }

  /** A container is decided by its first probe other than "running, not connected". */
  lemma {:induction false} DecidedByFirstVerdict(probe: Probes, i: nat, rounds: nat, s: VpnState)
    requires s != Waiting
    ensures After(probe, i, rounds) == s <==> exists r: nat :: r < rounds && DecidedIn(probe, i, r, s)
  {
    if rounds > 0 {
      var last := rounds - 1;
      DecidedByFirstVerdict(probe, i, last, s);
      WaitingMeansUndecided(probe, i, last);
      if After(probe, i, last) == Waiting {
        assert forall r: nat :: r < last ==> !DecidedIn(probe, i, r, s);
        assert DecidedIn(probe, i, last, s) <==> Verdict(probe(last, i)) == s;
      } else {
        assert !DecidedIn(probe, i, last, s);
      }
    }
  }

  lemma {:induction false} WaitingMeansUndecided(probe: Probes, i: nat, rounds: nat)
    ensures After(probe, i, rounds) == Waiting <==> forall q: nat :: q < rounds ==> probe(q, i) == Running(false)
  {
    if rounds > 0 {
      WaitingMeansUndecided(probe, i, rounds - 1);
    }
  }

  // ---------------------------------------------------------------- command log

  /** The commands addressed to container `i`, in order. */
  ghost function For(log: seq<Command>, i: nat): seq<Command> {
    if log == [] then []
    else
      var c := log[|log| - 1];
      For(log[..|log| - 1], i) + (if !c.RestartProxy? && c.i == i then [c] else [])
  }

  lemma ForAppend(log: seq<Command>, c: Command, i: nat)
    ensures For(log + [c], i) == For(log, i) + (if !c.RestartProxy? && c.i == i then [c] else [])
  {
    assert (log + [c])[..|log|] == log;
  }

  /** A container gets its two commands once, in order, when it connects, and otherwise none. */
  ghost predicate LogMatches(log: seq<Command>, states: seq<VpnState>) {
    && RestartProxy !in log
    && (forall i :: 0 <= i < |states| ==>
          For(log, i) == if states[i] == Connected then [Whitelist(i), Microsocks(i)] else [])
    && (forall i :: |states| <= i ==> For(log, i) == [])
  }

  lemma ConnectLogs(log: seq<Command>, states: seq<VpnState>, i: nat)
    requires LogMatches(log, states) && i < |states| && states[i] != Connected
    ensures LogMatches(log + [Whitelist(i)] + [Microsocks(i)], states[i := Connected])
  {
    var log1 := log + [Whitelist(i)];
    forall k: nat
      ensures For(log1 + [Microsocks(i)], k) == For(log, k) + if k == i then [Whitelist(i), Microsocks(i)] else []
    {
      ForAppend(log, Whitelist(i), k);
      ForAppend(log1, Microsocks(i), k);
    }
  }

  function CountConnected(states: seq<VpnState>): (n: nat)
    ensures n > 0 <==> Connected in states
  {
    if states == [] then 0
    else
      assert states == states[..|states| - 1] + [states[|states| - 1]];
      CountConnected(states[..|states| - 1]) + (if states[|states| - 1] == Connected then 1 else 0)
  }

  /** Which containers are connected. */
  ghost function ConnectedOnes(states: seq<VpnState>): set<nat> {
    set i: nat | i < |states| && states[i] == Connected
  }

  lemma {:induction false} CountIsCardinality(states: seq<VpnState>)
    ensures CountConnected(states) == |ConnectedOnes(states)|
  {
    if states != [] {
      var n := |states| - 1;
      var front := states[..n];
      CountIsCardinality(front);
      assert ConnectedOnes(states) == ConnectedOnes(front) + (if states[n] == Connected then {n} else {});
    }
  }

  /** Marking the remaining ones as timed out does not change who is connected. */
  lemma {:induction false} TimeoutKeepsCount(before: seq<VpnState>, after: seq<VpnState>)
    requires |before| == |after| && forall i :: 0 <= i < |before| ==> (before[i] == Connected <==> after[i] == Connected)
    ensures CountConnected(before) == CountConnected(after)
  {
    if before != [] {
      TimeoutKeepsCount(before[..|before| - 1], after[..|after| - 1]);
    }
  }

  lemma SameLogMatches(log: seq<Command>, before: seq<VpnState>, after: seq<VpnState>)
    requires LogMatches(log, before)
    requires |before| == |after| && forall i :: 0 <= i < |before| ==> (before[i] == Connected <==> after[i] == Connected)
    ensures LogMatches(log, after)
  {
  }

  // ---------------------------------------------------------------- the loops

  /** Polls every unresolved container once. */
  method PollRound(probe: Probes, round: nat, states: seq<VpnState>, log: seq<Command>)
    returns (states': seq<VpnState>, log': seq<Command>)
    requires forall i :: 0 <= i < |states| ==> states[i] == After(probe, i, round)
    requires LogMatches(log, states)
    ensures |states'| == |states|
    ensures forall i :: 0 <= i < |states| ==> states'[i] == After(probe, i, round + 1)
    ensures LogMatches(log', states')
  {
    states', log' := states, log;
    for i := 0 to |states|
      invariant |states'| == |states| && LogMatches(log', states')
      invariant forall k :: 0 <= k < |states| ==> states'[k] == After(probe, k, if k < i then round + 1 else round)
    {
      if states'[i] == Waiting {
        match probe(round, i) {
          case Exited(reason) =>
            states' := states'[i := Failed(reason)];
          case Running(connected) =>
            if connected {
              ConnectLogs(log', states', i);
              log' := log' + [Whitelist(i)];
              log' := log' + [Microsocks(i)];
              states' := states'[i := Connected];
            }
        }
      }
    }
  }

  /** Marks the containers still waiting as timed out. */
  method FailWaiting(states: seq<VpnState>) returns (states': seq<VpnState>)
    ensures |states'| == |states|
    ensures forall i :: 0 <= i < |states| ==> states'[i] == if states[i] == Waiting then Failed(TIMED_OUT) else states[i]
  {
    states' := states;
    for i := 0 to |states|
      invariant |states'| == |states|
      invariant forall k :: 0 <= k < |states| ==>
                  states'[k] == if k < i && states[k] == Waiting then Failed(TIMED_OUT) else states[k]
    {
      if states'[i] == Waiting {
        states' := states'[i := Failed(TIMED_OUT)];
      }
    }
  }

  lemma NoneWaiting(before: seq<VpnState>, after: seq<VpnState>)
    requires |after| == |before|
    requires forall i :: 0 <= i < |before| ==> after[i] == if before[i] == Waiting then Failed(TIMED_OUT) else before[i]
    ensures Waiting !in after
  {
  }

  ghost predicate AllResolved(probe: Probes, n: nat, rounds: nat) {
    forall i :: 0 <= i < n ==> After(probe, i, rounds) != Waiting
  }

  /** The round after which polling stops: all containers resolved or the timeout exceeded, for the first time. */
  ghost predicate StopsAfter(probe: Probes, clock: Clock, n: nat, rounds: nat) {
    && rounds > 0
    && (AllResolved(probe, n, rounds) || clock(rounds - 1) > TIMEOUT)
    && GoesOnUntil(probe, clock, n, rounds)
  }

  /** Every round before number `rounds` ended with someone waiting and time left. */
  ghost predicate GoesOnUntil(probe: Probes, clock: Clock, n: nat, rounds: nat) {
    forall r :: 0 < r < rounds ==> GoesOn(probe, clock, n, r)
  }

  /** Round `r`, counted from 1, ended with someone waiting and time left. */
  ghost predicate GoesOn(probe: Probes, clock: Clock, n: nat, r: nat)
    requires r > 0
  {
    !AllResolved(probe, n, r) && clock(r - 1) <= TIMEOUT
  }

  lemma ResolvedIffNoneWaiting(probe: Probes, n: nat, rounds: nat, states: seq<VpnState>)
    requires |states| == n && forall i :: 0 <= i < n ==> states[i] == After(probe, i, rounds)
    ensures AllResolved(probe, n, rounds) <==> Waiting !in states
  {
    assert forall i :: 0 <= i < n ==> states[i] in states;
  }

  lemma {:induction false} ClockBound(clock: Clock, r: nat)
    requires Ticks(clock)
    ensures clock(r) >= r * POLL_INTERVAL
  {
    if r > 0 {
      ClockBound(clock, r - 1);
      assert clock(r - 1) + POLL_INTERVAL <= clock(r - 1 + 1);
    }
  }

  /** The polling loop itself. */
  method PollUntilDone(n: nat, probe: Probes, clock: Clock)
    returns (states: seq<VpnState>, log: seq<Command>, rounds: nat)
    requires Ticks(clock)
    ensures rounds <= 38 && StopsAfter(probe, clock, n, rounds)
    ensures |states| == n && LogMatches(log, states)
    ensures forall i :: 0 <= i < n ==> states[i] == After(probe, i, rounds)
  {
    states, log, rounds := seq(n, _ => Waiting), [], 0;
    while true
      invariant |states| == n && LogMatches(log, states)
      invariant forall i :: 0 <= i < n ==> states[i] == After(probe, i, rounds)
      invariant rounds <= 37
      invariant forall r :: 0 < r <= rounds ==> GoesOn(probe, clock, n, r)
      decreases 38 - rounds
    {
      states, log := PollRound(probe, rounds, states, log);
      rounds := rounds + 1;
      ResolvedIffNoneWaiting(probe, n, rounds, states);
      if Waiting !in states || clock(rounds - 1) > TIMEOUT {
        return;
      }
      assert GoesOn(probe, clock, n, rounds);
      ClockBound(clock, rounds - 1);
    }
  }

  /**
   * Waits until every container is resolved or the timeout passes. At exit no container is left
   * waiting, each is in the state its first decisive probe gave it or timed out, the call succeeds
   * if and only if one is connected, and it takes at most 38 rounds.
   */
  method WaitForHealthy(n: nat, probe: Probes, clock: Clock)
    returns (ok: bool, states: seq<VpnState>, connected: nat, log: seq<Command>, rounds: nat)
    requires Ticks(clock)
    ensures rounds <= 38 && StopsAfter(probe, clock, n, rounds)
    ensures |states| == n && Waiting !in states
    ensures forall i :: 0 <= i < n ==>
              states[i] == if After(probe, i, rounds) == Waiting then Failed(TIMED_OUT) else After(probe, i, rounds)
    ensures ok <==> Connected in states
    ensures connected == |ConnectedOnes(states)|
    ensures ok <==> log != [] && log[|log| - 1] == RestartProxy
    ensures LogMatches(if ok then log[..|log| - 1] else log, states)
  {
    states, log, rounds := PollUntilDone(n, probe, clock);
    connected := CountConnected(states);
    ghost var before, polled := states, log;
    states := FailWaiting(states);
    TimeoutKeepsCount(before, states);
    CountIsCardinality(states);
    SameLogMatches(log, before, states);
    NoneWaiting(before, states);
    ok := connected > 0;
    if ok {
      log := log + [RestartProxy];
      assert log[..|log| - 1] == polled;
    }
  }
}
