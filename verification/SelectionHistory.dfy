/** What other tasks did, and what picks make of it: the shared world told by the actions alone. */
module SelectionHistory {
  import Filter
  import opened Pool
  import opened Router
  import opened Selection
  import opened SelectionProofs

  /** The world before action `k`, in any later state. */
  lemma {:induction false} WorldsFollowActions(states: seq<State>, actions: seq<Action>, i: nat)
    requires Execution(states, actions) && i < |states|
    ensures |states[i].past| == i + 1 && states[i].past[0] == states[0].past[0]
    ensures forall k :: 0 <= k < i ==> states[i].past[k + 1] == After(states[i].past[k], actions[k])
  {
    if i > 0 {
      WorldsFollowActions(states, actions, i - 1);
      assert Follows(states[i - 1], actions[i - 1], states[i]);
      assert states[i].past == states[i - 1].past + [After(Current(states[i - 1]), actions[i - 1])];
    }
  }

  /** A sequence of worlds in which every action has its effect. */
  ghost predicate Told(worlds: seq<World>, actions: seq<Action>) {
    && |worlds| <= |actions| + 1 && worlds != []
    && forall k :: 0 <= k < |worlds| - 1 ==> worlds[k + 1] == After(worlds[k], actions[k])
  }

  // ---------------------------------------------------------------- health

  predicate Touches(a: Action, handle: nat) {
    a.SetHealth? && a.handle == handle
  }

  /** No action from number `j` until before number `k` sets this health flag. */
  ghost predicate Untouched(actions: seq<Action>, j: nat, k: nat, handle: nat) {
    forall m :: j <= m < k && m < |actions| ==> !Touches(actions[m], handle)
  }

  /** Action `j` is the last one before number `k` to set this health flag. */
  ghost predicate LastTouch(actions: seq<Action>, j: nat, k: nat, handle: nat) {
    j < k && j < |actions| && Touches(actions[j], handle) && Untouched(actions, j + 1, k, handle)
  }

  lemma {:induction false} UntouchedKeeps(worlds: seq<World>, actions: seq<Action>, j: nat, k: nat, handle: nat)
    requires Told(worlds, actions) && j <= k < |worlds| && Untouched(actions, j, k, handle)
    ensures handle in worlds[k].down <==> handle in worlds[j].down
    decreases k
  {
    if j < k {
      UntouchedKeeps(worlds, actions, j, k - 1, handle);
      assert worlds[k] == After(worlds[k - 1], actions[k - 1]);
    }
  }

  /** The last action on a flag decides it. */
  lemma LastTouchDecides(worlds: seq<World>, actions: seq<Action>, j: nat, k: nat, handle: nat)
    requires Told(worlds, actions) && k < |worlds| && LastTouch(actions, j, k, handle)
    ensures handle in worlds[k].down <==> !actions[j].healthy
  {
    assert worlds[j + 1] == After(worlds[j], actions[j]);
    UntouchedKeeps(worlds, actions, j + 1, k, handle);
  }

  lemma {:induction false} LastTouchExists(actions: seq<Action>, k: nat, handle: nat) returns (j: nat)
    requires k <= |actions| && !Untouched(actions, 0, k, handle)
    ensures LastTouch(actions, j, k, handle)
    decreases k
  {
    if Touches(actions[k - 1], handle) {
      j := k - 1;
    } else {
      j := LastTouchExists(actions, k - 1, handle);
    }
  }

  /**
   * A tunnel is unhealthy at a time exactly if the last action on its flag before closed it, or
   * there was none and it was unhealthy from the start.
   */
  lemma DownIff(states: seq<State>, actions: seq<Action>, i: nat, k: nat, handle: nat)
    requires Execution(states, actions) && i < |states| && k < |states[i].past|
    ensures handle in states[i].past[k].down <==>
              || (handle in states[0].past[0].down && Untouched(actions, 0, k, handle))
              || exists j: nat :: LastTouch(actions, j, k, handle) && !actions[j].healthy
  {
    WorldsFollowActions(states, actions, i);
    var worlds := states[i].past;
    if Untouched(actions, 0, k, handle) {
      UntouchedKeeps(worlds, actions, 0, k, handle);
    } else {
      var j := LastTouchExists(actions, k, handle);
      forall m: nat | LastTouch(actions, m, k, handle)
        ensures handle in worlds[k].down <==> !actions[m].healthy
      {
        LastTouchDecides(worlds, actions, m, k, handle);
      }
    }
  }

  // ---------------------------------------------------------------- membership

  predicate Removes(a: Action, id: string) {
    a.RemoveTunnel? && a.id == id
  }

  predicate Adds(a: Action, id: string) {
    a.AddTunnel? && a.t.id == id
  }

  ghost predicate NoRemoval(actions: seq<Action>, j: nat, k: nat, id: string) {
    forall m :: j <= m < k && m < |actions| ==> !Removes(actions[m], id)
  }

  ghost predicate NoAddition(actions: seq<Action>, j: nat, k: nat, id: string) {
    forall m :: j <= m < k && m < |actions| ==> !Adds(actions[m], id)
  }

  /** Action `j` put `t` into the pool and no removal of its identifier followed before number `k`. */
  ghost predicate AddedAndKept(actions: seq<Action>, j: nat, k: nat, t: Transport) {
    j < k && j < |actions| && actions[j] == AddTunnel(t) && NoRemoval(actions, j + 1, k, t.id)
  }

  /** What one action does to the membership of a tunnel. */
  lemma MemberAfter(w: World, a: Action, t: Transport)
    ensures t in After(w, a).pool <==> (t in w.pool && !Removes(a, t.id)) || a == AddTunnel(t)
  {
    if a.RemoveTunnel? {
      WithoutIff(w.pool, a.id, t);
    }
  }

  lemma {:induction false} TunnelStays(worlds: seq<World>, actions: seq<Action>, j: nat, k: nat, t: Transport)
    requires Told(worlds, actions) && j <= k < |worlds| && t in worlds[j].pool && NoRemoval(actions, j, k, t.id)
    ensures t in worlds[k].pool
    decreases k
  {
    if j < k {
      TunnelStays(worlds, actions, j, k - 1, t);
      assert worlds[k] == After(worlds[k - 1], actions[k - 1]);
      MemberAfter(worlds[k - 1], actions[k - 1], t);
    }
  }

  /** A tunnel that is in the pool was there from the start or was added, and not removed since. */
  lemma {:induction false} TunnelCameFrom(worlds: seq<World>, actions: seq<Action>, k: nat, t: Transport)
    requires Told(worlds, actions) && k < |worlds| && t in worlds[k].pool
    ensures (t in worlds[0].pool && NoRemoval(actions, 0, k, t.id)) || exists j: nat :: AddedAndKept(actions, j, k, t)
    decreases k
  {
    if k > 0 {
      assert worlds[k] == After(worlds[k - 1], actions[k - 1]);
      MemberAfter(worlds[k - 1], actions[k - 1], t);
      if actions[k - 1] == AddTunnel(t) {
        assert AddedAndKept(actions, k - 1, k, t);
      } else {
        var before := k - 1;
        TunnelCameFrom(worlds, actions, before, t);
        if j: nat :| AddedAndKept(actions, j, before, t) {
          assert AddedAndKept(actions, j, k, t);
        }
      }
    }
  }

  lemma AddedStays(worlds: seq<World>, actions: seq<Action>, j: nat, k: nat, t: Transport)
    requires Told(worlds, actions) && k < |worlds| && AddedAndKept(actions, j, k, t)
    ensures t in worlds[k].pool
  {
    assert worlds[j + 1] == After(worlds[j], actions[j]);
    MemberAfter(worlds[j], actions[j], t);
    TunnelStays(worlds, actions, j + 1, k, t);
  }

  /** The pool at a time holds exactly the tunnels from the start and the added ones, less those removed since. */
  lemma InPoolIff(states: seq<State>, actions: seq<Action>, i: nat, k: nat, t: Transport)
    requires Execution(states, actions) && i < |states| && k < |states[i].past|
    ensures t in states[i].past[k].pool <==>
              || (t in states[0].past[0].pool && NoRemoval(actions, 0, k, t.id))
              || exists j: nat :: AddedAndKept(actions, j, k, t)
  {
    WorldsFollowActions(states, actions, i);
    var worlds := states[i].past;
    if t in worlds[k].pool {
      TunnelCameFrom(worlds, actions, k, t);
    }
    if t in worlds[0].pool && NoRemoval(actions, 0, k, t.id) {
      TunnelStays(worlds, actions, 0, k, t);
    }
    if j: nat :| AddedAndKept(actions, j, k, t) {
      AddedStays(worlds, actions, j, k, t);
    }
  }

  // ---------------------------------------------------------------- the lock

  predicate LockAction(a: Action) {
    a.RequestWrite? || a.EnterWrite? || a.ExitWrite?
  }

  ghost predicate LastLockAction(actions: seq<Action>, j: nat, k: nat) {
    j < k && j < |actions| && LockAction(actions[j]) && forall m :: j < m < k && m < |actions| ==> !LockAction(actions[m])
  }

  function WriterAfter(a: Action): Writer
    requires LockAction(a)
  {
    match a
    case RequestWrite => Waiting
    case EnterWrite => Holding
    case ExitWrite => NoWriter
  }

  lemma {:induction false} WriterStays(worlds: seq<World>, actions: seq<Action>, j: nat, k: nat)
    requires Told(worlds, actions) && j <= k < |worlds| && forall m :: j <= m < k ==> !LockAction(actions[m])
    ensures worlds[k].writer == worlds[j].writer
    decreases k
  {
    if j < k {
      WriterStays(worlds, actions, j, k - 1);
      assert worlds[k] == After(worlds[k - 1], actions[k - 1]);
    }
  }

  /** A writer waits, holds the lock or is gone as the last action on the lock says. */
  lemma LastLockDecides(worlds: seq<World>, actions: seq<Action>, j: nat, k: nat)
    requires Told(worlds, actions) && k < |worlds| && LastLockAction(actions, j, k)
    ensures worlds[k].writer == WriterAfter(actions[j])
  {
    assert worlds[j + 1] == After(worlds[j], actions[j]);
    WriterStays(worlds, actions, j + 1, k);
  }

  lemma {:induction false} LastLockActionExists(actions: seq<Action>, k: nat) returns (j: nat)
    requires k <= |actions| && exists m :: 0 <= m < k && LockAction(actions[m])
    ensures LastLockAction(actions, j, k)
  {
    if LockAction(actions[k - 1]) {
      j := k - 1;
    } else {
      j := LastLockActionExists(actions, k - 1);
    }
  }

  /** The lock is open at a time exactly if no writer came yet or the last to act on it left. */
  lemma OpenIff(states: seq<State>, actions: seq<Action>, i: nat, k: nat)
    requires Execution(states, actions) && i < |states| && k < |states[i].past|
    ensures states[i].past[k].writer == NoWriter <==>
              || (forall m :: 0 <= m < k && m < |actions| ==> !LockAction(actions[m]))
              || exists j: nat :: LastLockAction(actions, j, k) && actions[j].ExitWrite?
  {
    WorldsFollowActions(states, actions, i);
    if exists m :: 0 <= m < k && LockAction(actions[m]) {
      var j := LastLockActionExists(actions, k);
      forall m: nat | LastLockAction(actions, m, k)
        ensures states[i].past[k].writer == WriterAfter(actions[m])
      {
        LastLockDecides(states[i].past, actions, m, k);
      }
    } else {
      WriterStays(states[i].past, actions, 0, k);
    }
  }

  // ---------------------------------------------------------------- what picks return

  /** Closing a tunnel works: a pick that starts afterwards never returns it, unless it is reopened. */
  lemma ClosedIsNotPicked(states: seq<State>, actions: seq<Action>, i: nat, p: nat, j: nat, handle: nat)
    requires Execution(states, actions) && i < |states| && p < |states[i].pickers|
    requires states[i].pickers[p].Returned? && states[i].pickers[p].result.Picked?
    requires j < states[i].pickers[p].times.at && LastTouch(actions, j, i, handle) && !actions[j].healthy
    ensures states[i].pickers[p].result.transport.handle != handle
  {
    PickedWasHealthy(states, actions, i, p);
    WorldsFollowActions(states, actions, i);
    var past, h, t := states[i].past, states[i].pickers[p].times, states[i].pickers[p].result.transport;
    var m :| 0 <= m < |h.first| && UpAt(past, t, h.first[m]);
    var k: nat := h.first[m];
    assert h.at < k < |past|;
    LastTouchEarlier(actions, j, k, i, handle);
    LastTouchDecides(past, actions, j, k, handle);
    assert UpAt(past, t, k);
  }

  lemma LastTouchEarlier(actions: seq<Action>, j: nat, k: nat, k': nat, handle: nat)
    requires LastTouch(actions, j, k', handle) && j < k <= k'
    ensures LastTouch(actions, j, k, handle)
  {
  }

  /** Removing works: a pick whose snapshot comes later returns no tunnel of that name, unless one was added again. */
  lemma RemovedIsNotPicked(states: seq<State>, actions: seq<Action>, i: nat, p: nat, j: nat, id: string)
    requires Execution(states, actions) && i < |states| && p < |states[i].pickers|
    requires states[i].pickers[p].Returned? && states[i].pickers[p].result.Picked?
    requires j < states[i].pickers[p].times.at && j < |actions| && Removes(actions[j], id)
    requires NoAddition(actions, j + 1, states[i].pickers[p].times.at, id)
    ensures states[i].pickers[p].result.transport.id != id
  {
    PickedWasHealthy(states, actions, i, p);
    var h, t := states[i].pickers[p].times, states[i].pickers[p].result.transport;
    InPoolIff(states, actions, i, h.at, t);
    if m: nat :| AddedAndKept(actions, m, h.at, t) {
      assert m != j;
    }
  }

  /** Adding works: a tunnel added before a pick's snapshot and not removed since is in the snapshot. */
  lemma AddedIsSeen(states: seq<State>, actions: seq<Action>, i: nat, p: nat, j: nat)
    requires Execution(states, actions) && i < |states| && p < |states[i].pickers| && states[i].pickers[p].Returned?
    requires j < |actions| && actions[j].AddTunnel?
    requires AddedAndKept(actions, j, states[i].pickers[p].times.at, actions[j].t)
    ensures TimesOk(states[i].past, states[i].pickers[p].times)
    ensures actions[j].t in SnapshotOf(states[i].past, states[i].pickers[p].times)
  {
    ExecutionsKeepInv(states, actions, i);
    assert PickerOk(states[i].past, states[i].pickers[p]);
    InPoolIff(states, actions, i, states[i].pickers[p].times.at, actions[j].t);
  }

  /**
   * An open tunnel is enough: a pick that meets the lock open and a tunnel in its snapshot that was
   * healthy then and is not closed before the pick is over is not refused.
   */
  lemma OpenTunnelIsEnough(states: seq<State>, actions: seq<Action>, i: nat, p: nat, t: Transport)
    requires Execution(states, actions) && i < |states| && p < |states[i].pickers| && states[i].pickers[p].Returned?
    requires var past, h := states[i].past, states[i].pickers[p].times;
             && TimesOk(past, h) && past[h.at].writer == NoWriter && t in SnapshotOf(past, h)
             && t.handle !in past[h.at].down && Untouched(actions, h.at, i, t.handle)
    ensures states[i].pickers[p].result.Picked?
  {
    var past, h := states[i].past, states[i].pickers[p].times;
    WorldsFollowActions(states, actions, i);
    forall k | h.at <= k < |past|
      ensures UpAt(past, t, k)
    {
      UntouchedKeeps(past, actions, h.at, k, t.handle);
    }
    if states[i].pickers[p].result == NoHealthyTunnels {
      RefusalHasCause(states, actions, i, p);
    }
  }

  /** A stretch without additions, removals and health changes is stable. */
  lemma {:induction false} QuietActionsAreStable(worlds: seq<World>, actions: seq<Action>, lo: nat, k: nat)
    requires Told(worlds, actions) && lo <= k < |worlds|
    requires forall m :: lo <= m < k ==> Quiet(actions[m])
    ensures worlds[k].pool == worlds[lo].pool && worlds[k].down == worlds[lo].down
    decreases k
  {
    if lo < k {
      QuietActionsAreStable(worlds, actions, lo, k - 1);
      assert worlds[k] == After(worlds[k - 1], actions[k - 1]);
    }
  }

  predicate Quiet(a: Action) {
    !a.AddTunnel? && !a.RemoveTunnel? && !a.SetHealth?
  }

  /**
   * Fairness by the actions: while nobody adds, removes, opens or closes a tunnel, consecutive
   * successful picks share the tunnels healthy at the start of that time evenly.
   */
  lemma {:induction false} FairWhileQuiet(states: seq<State>, actions: seq<Action>, i: nat, a: nat, m: nat, lo: nat, hi: nat, j: nat)
    requires Execution(states, actions) && i < |states|
    requires lo < hi <= |states[i].past| && a + m <= |states[i].picks|
    requires forall k :: lo <= k < hi - 1 && k < |actions| ==> Quiet(actions[k])
    requires forall x :: a <= x < a + m ==> lo <= states[i].picks[x].times.at && states[i].picks[x].done < hi
    requires var w := states[i].past[lo];
             && Filter.Distinct(w.pool) && j < |HealthyOf(w.pool, w.down)|
             && (a % WORD + m <= WORD || WORD % |HealthyOf(w.pool, w.down)| == 0)
    ensures var w := states[i].past[lo];
            var n := |HealthyOf(w.pool, w.down)|;
            m / n <= TimesChosen(states[i].picks, a, m, HealthyOf(w.pool, w.down)[j]) <= (m + n - 1) / n
  {
    WorldsFollowActions(states, actions, i);
    var w := states[i].past[lo];
    forall k | lo <= k < hi
      ensures states[i].past[k].pool == w.pool && states[i].past[k].down == w.down
    {
      QuietActionsAreStable(states[i].past, actions, lo, k);
    }
    FairPicks(states, actions, i, a, m, lo, hi, w.pool, w.down, j);
  }
}
