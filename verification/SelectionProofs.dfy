/** What every interleaving of picks, pool changes and health flips guarantees. */
module SelectionProofs {
  import opened Filter
  import opened Pool
  import opened Router
  import opened Selection

  /** The health of `ts[i]` as it was at `times[i]`. */
  ghost function ReadingsAt(past: seq<World>, ts: seq<Transport>, times: seq<nat>): (up: seq<bool>)
    requires |times| <= |ts| && forall i :: 0 <= i < |times| ==> times[i] < |past|
    ensures |up| == |times| && forall i :: 0 <= i < |up| ==> up[i] == UpAt(past, ts[i], times[i])
  {
    seq(|times|, i requires 0 <= i < |times| => UpAt(past, ts[i], times[i]))
  }

  /** The order-preserving filter of the entries asked so far, each at its own time. */
  ghost function FilterAt(past: seq<World>, ts: seq<Transport>, times: seq<nat>): seq<Transport>
    requires |times| <= |ts| && forall i :: 0 <= i < |times| ==> times[i] < |past|
  {
    Keep(ts[..|times|], ReadingsAt(past, ts, times))
  }

  lemma FilterAtExtends(past: seq<World>, ts: seq<Transport>, times: seq<nat>, now: nat)
    requires |times| < |ts| && now < |past| && forall i :: 0 <= i < |times| ==> times[i] < |past|
    ensures FilterAt(past, ts, times + [now])
         == FilterAt(past, ts, times) + (if UpAt(past, ts[|times|], now) then [ts[|times|]] else [])
  {
    var n := |times|;
    var up := ReadingsAt(past, ts, times + [now]);
    assert ts[..n + 1][..n] == ts[..n];
    assert up[..n] == ReadingsAt(past, ts, times);
  }

  /** The past is never rewritten, so neither is what was read. */
  lemma FilterAtStable(past: seq<World>, w: World, ts: seq<Transport>, times: seq<nat>)
    requires |times| <= |ts| && forall i :: 0 <= i < |times| ==> times[i] < |past|
    ensures FilterAt(past + [w], ts, times) == FilterAt(past, ts, times)
  {
    assert ReadingsAt(past + [w], ts, times) == ReadingsAt(past, ts, times);
  }

  // ---------------------------------------------------------------- invariant

  ghost predicate TimesOk(past: seq<World>, h: Times) {
    && h.at < |past|
    && (forall i :: 0 <= i < |h.first| ==> h.at <= h.first[i] < |past|)
    && (forall i :: 0 <= i < |h.second| ==> h.at <= h.second[i] < |past|)
    && |h.first| <= |past[h.at].pool|
  }

  /** Snapshot first, then the pool's readings one by one, then the router's. */
  ghost predicate Ordered(h: Times) {
    && (forall i :: 0 <= i < |h.first| ==> h.at < h.first[i])
    && (forall i :: 0 <= i < |h.second| ==> h.at < h.second[i])
    && (forall i, j :: 0 <= i < j < |h.first| ==> h.first[i] < h.first[j])
    && (forall i, j :: 0 <= i < j < |h.second| ==> h.second[i] < h.second[j])
    && (forall i, j :: 0 <= i < |h.first| && 0 <= j < |h.second| ==> h.first[i] < h.second[j])
  }

  /** Everything recorded happened before time `now`. */
  ghost predicate Before(h: Times, now: nat) {
    && h.at < now
    && (forall i :: 0 <= i < |h.first| ==> h.first[i] < now)
    && (forall i :: 0 <= i < |h.second| ==> h.second[i] < now)
  }

  /** The pool as the pick saw it. */
  ghost function SnapshotOf(past: seq<World>, h: Times): seq<Transport>
    requires TimesOk(past, h)
  {
    past[h.at].pool
  }

  /** What the pool handed to the router. */
  ghost function Offered(past: seq<World>, h: Times): seq<Transport>
    requires TimesOk(past, h)
  {
    FilterAt(past, SnapshotOf(past, h), h.first)
  }

  /** What survived the router's own filter. */
  ghost function Survivors(past: seq<World>, h: Times): seq<Transport>
    requires TimesOk(past, h) && |h.second| <= |Offered(past, h)|
  {
    FilterAt(past, Offered(past, h), h.second)
  }

  /** Both filters went through their whole input. */
  ghost predicate AskedAll(past: seq<World>, h: Times) {
    && TimesOk(past, h)
    && |h.first| == |SnapshotOf(past, h)|
    && |h.second| == |Offered(past, h)|
  }

  ghost predicate PickerOk(past: seq<World>, k: Picker)
    requires past != []
  {
    match k
    case Idle => true
    case PoolPass(h, kept) =>
      && TimesOk(past, h) && h.second == []
      && past[h.at].writer == NoWriter
      && SnapshotOf(past, h) == past[|past| - 1].pool && past[|past| - 1].writer != Holding
      && kept == Offered(past, h)
    case RouterPass(h, input, kept) =>
      && TimesOk(past, h) && |h.first| == |SnapshotOf(past, h)|
      && past[h.at].writer == NoWriter
      && input == Offered(past, h)
      && |h.second| <= |input| && kept == Survivors(past, h)
    case Returned(h, result) =>
      && TimesOk(past, h)
      && if past[h.at].writer != NoWriter then result == NoHealthyTunnels
         else
           && AskedAll(past, h)
           && (if Survivors(past, h) == [] then result == NoHealthyTunnels
               else result.Picked? && result.transport in Survivors(past, h))
  }

  /**
   * The i-th successful pick drew ticket i modulo the word size and used it on the list that both
   * filters left, after all its readings.
   */
  ghost predicate PickOk(past: seq<World>, pick: Pick, i: nat) {
    && AskedAll(past, pick.times) && Before(pick.times, pick.done) && pick.done < |past|
    && pick.kept == Survivors(past, pick.times) && pick.kept != []
    && pick.ticket == i % WORD && pick.chosen == pick.kept[pick.ticket % |pick.kept|]
  }

  ghost predicate InOrder(k: Picker, now: nat) {
    !k.Idle? ==> Ordered(k.times) && Before(k.times, now)
  }

  ghost predicate Inv(s: State) {
    && s.past != []
    && (forall p {:trigger PickerOk(s.past, s.pickers[p])} :: 0 <= p < |s.pickers| ==> PickerOk(s.past, s.pickers[p]))
    && (forall p {:trigger InOrder(s.pickers[p], Now(s))} :: 0 <= p < |s.pickers| ==> InOrder(s.pickers[p], Now(s)))
    && s.counter == |s.picks| % WORD
    && (forall i {:trigger PickOk(s.past, s.picks[i], i)} :: 0 <= i < |s.picks| ==> PickOk(s.past, s.picks[i], i))
  }

  lemma TimesStable(past: seq<World>, w: World, h: Times)
    requires TimesOk(past, h)
    ensures TimesOk(past + [w], h) && SnapshotOf(past + [w], h) == SnapshotOf(past, h)
    ensures Offered(past + [w], h) == Offered(past, h)
    ensures |h.second| <= |Offered(past, h)| ==> Survivors(past + [w], h) == Survivors(past, h)
  {
    FilterAtStable(past, w, SnapshotOf(past, h), h.first);
    if |h.second| <= |Offered(past, h)| {
      FilterAtStable(past, w, Offered(past, h), h.second);
    }
  }

  /** Whatever others do, a picker keeps its guarantee: a reader keeps writers out. */
  lemma {:induction false} BystanderOk(past: seq<World>, w: World, k: Picker)
    requires past != [] && PickerOk(past, k)
    requires k.PoolPass? ==> w.pool == past[|past| - 1].pool && w.writer != Holding
    ensures PickerOk(past + [w], k)
  {
    if !k.Idle? {
      TimesStable(past, w, k.times);
    }
  }

  lemma {:induction false} PoolReadOk(s: State, k: Picker, a: Action)
    requires s.past != [] && PickerOk(s.past, k) && k.PoolPass? && a.PoolRead?
    ensures PickerOk(s.past, Advance(s, k, a))
  {
    var h, now := k.times, Now(s);
    var pool := SnapshotOf(s.past, h);
    if |h.first| < |pool| {
      FilterAtExtends(s.past, pool, h.first, now);
    } else {
      assert Survivors(s.past, h) == [];
    }
  }

  lemma RouterReadOk(s: State, k: Picker, a: Action)
    requires s.past != [] && PickerOk(s.past, k) && k.RouterPass? && a.RouterRead? && |k.times.second| < |k.input|
    ensures PickerOk(s.past, Advance(s, k, a))
  {
    FilterAtExtends(s.past, k.input, k.times.second, Now(s));
  }

  lemma {:induction false} ActorOk(s: State, k: Picker, a: Action)
    requires s.past != [] && PickerOk(s.past, k) && ByPicker(a)
    requires a.PoolRead? ==> k.PoolPass?
    requires a.RouterRead? ==> k.RouterPass? && |k.times.second| < |k.input|
    requires a.Choose? ==> k.RouterPass? && |k.times.second| == |k.input|
    ensures PickerOk(s.past, Advance(s, k, a))
  {
    match a {
      case Snapshot(_) =>
        if Current(s).writer == NoWriter {
          assert Offered(s.past, Times(Now(s), [], [])) == [];
        }
      case PoolRead(_) => PoolReadOk(s, k, a);
      case RouterRead(_) => RouterReadOk(s, k, a);
      case _ =>
    }
  }

  /** No action changes the pool or starts writing while some picker holds the read lock. */
  lemma ReadersShutOutWriters(s: State, a: Action, p: nat)
    requires Inv(s) && Enabled(s, a) && p < |s.pickers| && s.pickers[p].PoolPass?
    ensures After(Current(s), a).pool == Current(s).pool && After(Current(s), a).writer != Holding
  {
    assert PickerOk(s.past, s.pickers[p]);
  }

  lemma PickersStayOk(s: State, a: Action)
    requires Inv(s) && Enabled(s, a)
    ensures var s' := Next(s, a);
            forall p :: 0 <= p < |s'.pickers| ==> PickerOk(s'.past, s'.pickers[p])
  {
    var s', w := Next(s, a), After(Current(s), a);
    forall p | 0 <= p < |s'.pickers|
      ensures PickerOk(s'.past, s'.pickers[p])
    {
      assert PickerOk(s.past, s.pickers[p]);
      if ByPicker(a) && a.p == p {
        ActorOk(s, s.pickers[p], a);
      } else if s.pickers[p].PoolPass? {
        ReadersShutOutWriters(s, a, p);
      }
      BystanderOk(s.past, w, s'.pickers[p]);
    }
  }

  lemma PoolReadInOrder(h: Times, now: nat)
    requires Ordered(h) && Before(h, now) && h.second == []
    ensures Ordered(h.(first := h.first + [now])) && Before(h.(first := h.first + [now]), now + 1)
  {
  }

  lemma RouterReadInOrder(h: Times, now: nat)
    requires Ordered(h) && Before(h, now)
    ensures Ordered(h.(second := h.second + [now])) && Before(h.(second := h.second + [now]), now + 1)
  {
  }

  /** What a picker has recorded stays in order as time passes. */
  lemma OrderKept(k: Picker, k': Picker, now: nat)
    requires InOrder(k, now) && !k.Idle? && !k'.Idle? && k'.times == k.times
    ensures InOrder(k', now + 1)
  {
  }

  /** Time passes with every action, so what a picker records next is later than what it has. */
  lemma {:induction false} AdvanceInOrder(s: State, k: Picker, a: Action)
    requires s.past != [] && InOrder(k, Now(s)) && ByPicker(a)
    requires a.PoolRead? ==> k.PoolPass? && k.times.second == []
    requires a.RouterRead? ==> k.RouterPass? && |k.times.second| < |k.input|
    requires a.Choose? ==> k.RouterPass?
    ensures InOrder(Advance(s, k, a), Now(s) + 1)
  {
    match a {
      case PoolRead(_) =>
        if |k.times.first| < |Current(s).pool| {
          PoolReadInOrder(k.times, Now(s));
        } else {
          OrderKept(k, Advance(s, k, a), Now(s));
        }
      case RouterRead(_) => RouterReadInOrder(k.times, Now(s));
      case Choose(_) => OrderKept(k, Advance(s, k, a), Now(s));
      case _ =>
    }
  }

  lemma PickersStayInOrder(s: State, a: Action)
    requires Inv(s) && Enabled(s, a)
    ensures var s' := Next(s, a);
            forall p :: 0 <= p < |s'.pickers| ==> InOrder(s'.pickers[p], Now(s'))
  {
    var s' := Next(s, a);
    forall p | 0 <= p < |s'.pickers|
      ensures InOrder(s'.pickers[p], Now(s'))
    {
      assert PickerOk(s.past, s.pickers[p]) && InOrder(s.pickers[p], Now(s));
      if ByPicker(a) && a.p == p {
        AdvanceInOrder(s, s.pickers[p], a);
      }
    }
  }

  lemma {:induction false} PickStaysOk(past: seq<World>, w: World, pick: Pick, i: nat)
    requires PickOk(past, pick, i)
    ensures PickOk(past + [w], pick, i)
  {
    TimesStable(past, w, pick.times);
  }

  /** The pick made by a `Choose` action is logged as the invariant says. */
  lemma NewPickOk(s: State, a: Action)
    requires Inv(s) && Enabled(s, a) && a.Choose? && s.pickers[a.p].kept != []
    ensures PickOk(s.past, Next(s, a).picks[|s.picks|], |s.picks|)
  {
    assert PickerOk(s.past, s.pickers[a.p]) && InOrder(s.pickers[a.p], Now(s));
  }

  lemma OldPicksStayOk(s: State, w: World)
    requires Inv(s)
    ensures forall i :: 0 <= i < |s.picks| ==> PickOk(s.past + [w], s.picks[i], i)
  {
    forall i | 0 <= i < |s.picks|
      ensures PickOk(s.past + [w], s.picks[i], i)
    {
      assert PickOk(s.past, s.picks[i], i);
      PickStaysOk(s.past, w, s.picks[i], i);
    }
  }

  lemma PicksStayOk(s: State, a: Action)
    requires Inv(s) && Enabled(s, a)
    ensures var s' := Next(s, a);
            && s'.counter == |s'.picks| % WORD
            && forall i :: 0 <= i < |s'.picks| ==> PickOk(s'.past, s'.picks[i], i)
  {
    var s', w := Next(s, a), After(Current(s), a);
    OldPicksStayOk(s, w);
    if a.Choose? && s.pickers[a.p].kept != [] {
      ModStep(|s.picks|, WORD);
      NewPickOk(s, a);
      PickStaysOk(s.past, w, s'.picks[|s.picks|], |s.picks|);
    }
  }

  lemma {:induction false} StepKeepsInv(s: State, a: Action)
    requires Inv(s) && Enabled(s, a)
    ensures Inv(Next(s, a))
  {
    PickersStayOk(s, a);
    PickersStayInOrder(s, a);
    PicksStayOk(s, a);
  }

  lemma {:induction false} ExecutionsKeepInv(states: seq<State>, actions: seq<Action>, i: nat)
    requires Execution(states, actions) && i < |states|
    ensures Inv(states[i])
  {
    if i > 0 {
      ExecutionsKeepInv(states, actions, i - 1);
      assert Follows(states[i - 1], actions[i - 1], states[i]);
      StepKeepsInv(states[i - 1], actions[i - 1]);
    }
  }

  // ---------------------------------------------------------------- safety

  /** A tunnel surviving a filter was in its input and answered healthy when asked. */
  lemma SurvivorWasAsked(past: seq<World>, ts: seq<Transport>, times: seq<nat>, t: Transport)
    requires |times| == |ts| && forall i :: 0 <= i < |times| ==> times[i] < |past|
    ensures t in FilterAt(past, ts, times) <==> exists i :: 0 <= i < |ts| && ts[i] == t && UpAt(past, t, times[i])
  {
    assert ts[..|ts|] == ts;
    KeptIff(ts, ReadingsAt(past, ts, times), t);
  }

  /**
   * In every interleaving a returned tunnel was in the pool at the snapshot, and answered healthy
   * to the pool and, at a later time, to the router.
   */
  lemma PickedWasHealthy(states: seq<State>, actions: seq<Action>, i: nat, p: nat)
    requires Execution(states, actions) && i < |states| && p < |states[i].pickers|
    requires states[i].pickers[p].Returned? && states[i].pickers[p].result.Picked?
    ensures var past, h, t := states[i].past, states[i].pickers[p].times, states[i].pickers[p].result.transport;
            && AskedAll(past, h) && Ordered(h)
            && t in SnapshotOf(past, h)
            && (exists j :: 0 <= j < |h.first| && SnapshotOf(past, h)[j] == t && UpAt(past, t, h.first[j]))
            && (exists j :: 0 <= j < |h.second| && Offered(past, h)[j] == t && UpAt(past, t, h.second[j]))
  {
    ExecutionsKeepInv(states, actions, i);
    var past, h, t := states[i].past, states[i].pickers[p].times, states[i].pickers[p].result.transport;
    assert PickerOk(past, states[i].pickers[p]) && InOrder(states[i].pickers[p], Now(states[i]));
    SurvivorWasAsked(past, Offered(past, h), h.second, t);
    SurvivorWasAsked(past, SnapshotOf(past, h), h.first, t);
  }

  /**
   * `NoHealthyTunnels` is returned only if a writer held or was queued for the lock at the
   * snapshot, or every tunnel of the snapshot answered unhealthy to the pool or to the router.
   */
  lemma RefusalHasCause(states: seq<State>, actions: seq<Action>, i: nat, p: nat)
    requires Execution(states, actions) && i < |states| && p < |states[i].pickers|
    requires states[i].pickers[p].Returned? && states[i].pickers[p].result == NoHealthyTunnels
    ensures var past, h := states[i].past, states[i].pickers[p].times;
            && TimesOk(past, h)
            && (past[h.at].writer != NoWriter ||
                (AskedAll(past, h) &&
                 forall j :: 0 <= j < |h.first| ==>
                   var t := SnapshotOf(past, h)[j];
                   !UpAt(past, t, h.first[j]) ||
                   exists m :: 0 <= m < |h.second| && Offered(past, h)[m] == t && !UpAt(past, t, h.second[m])))
  {
    ExecutionsKeepInv(states, actions, i);
    var past, h := states[i].past, states[i].pickers[p].times;
    assert PickerOk(past, states[i].pickers[p]);
    if past[h.at].writer == NoWriter {
      forall j | 0 <= j < |h.first| && UpAt(past, SnapshotOf(past, h)[j], h.first[j])
        ensures exists m :: 0 <= m < |h.second| && Offered(past, h)[m] == SnapshotOf(past, h)[j]
                            && !UpAt(past, SnapshotOf(past, h)[j], h.second[m])
      {
        var t := SnapshotOf(past, h)[j];
        SurvivorWasAsked(past, SnapshotOf(past, h), h.first, t);
        SurvivorWasAsked(past, Offered(past, h), h.second, t);
        var m :| 0 <= m < |Offered(past, h)| && Offered(past, h)[m] == t;
      }
    }
  }

  /** Every reading of the pick found the same tunnels unhealthy. */
  ghost predicate SameHealth(past: seq<World>, h: Times, down: set<nat>) {
    && TimesOk(past, h)
    && (forall i :: 0 <= i < |h.first| ==> past[h.first[i]].down == down)
    && (forall i :: 0 <= i < |h.second| ==> past[h.second[i]].down == down)
  }

  /** If no health flag flips between the readings, the two filters amount to one. */
  lemma QuietPickFiltersOnce(past: seq<World>, h: Times, down: set<nat>)
    requires AskedAll(past, h) && SameHealth(past, h, down)
    ensures Survivors(past, h) == Offered(past, h) == Keep(SnapshotOf(past, h), Readings(SnapshotOf(past, h), down))
  {
    var pool := SnapshotOf(past, h);
    assert pool[..|pool|] == pool;
    assert ReadingsAt(past, pool, h.first) == Readings(pool, down);
    var input := Offered(past, h);
    assert input[..|input|] == input;
    SecondFilterIsIdentity(pool, Readings(pool, down), ReadingsAt(past, input, h.second), down);
  }

  /**
   * A pick during which no health flag flips and no writer is around at the snapshot answers as
   * one filter over the snapshot would: refused if and only if that filter keeps nothing.
   */
  lemma QuietPick(states: seq<State>, actions: seq<Action>, i: nat, p: nat)
    requires Execution(states, actions) && i < |states| && p < |states[i].pickers|
    requires var s := states[i];
             && s.pickers[p].Returned? && TimesOk(s.past, s.pickers[p].times)
             && s.past[s.pickers[p].times.at].writer == NoWriter
             && (forall k :: s.pickers[p].times.at <= k < |s.past| ==>
                   s.past[k].down == s.past[s.pickers[p].times.at].down)
    ensures var s := states[i];
            var w := s.past[s.pickers[p].times.at];
            var healthy := Keep(w.pool, Readings(w.pool, w.down));
            if healthy == [] then s.pickers[p].result == NoHealthyTunnels
            else s.pickers[p].result.Picked? && s.pickers[p].result.transport in healthy
  {
    ExecutionsKeepInv(states, actions, i);
    assert PickerOk(states[i].past, states[i].pickers[p]);
    QuietPickFiltersOnce(states[i].past, states[i].pickers[p].times, states[i].past[states[i].pickers[p].times.at].down);
  }

  // ---------------------------------------------------------------- fairness over runs

  /** How many of the picks number a, ..., a+m-1 chose `t`. */
  ghost function TimesChosen(picks: seq<Pick>, a: nat, m: nat, t: Transport): nat
    requires a + m <= |picks|
  {
    if m == 0 then 0 else TimesChosen(picks, a, m - 1, t) + (if picks[a + m - 1].chosen == t then 1 else 0)
  }

  /**
   * Pool and health flags do not change from time `lo` until time `hi`, and picks number
   * a, ..., a+m-1 start and end in between.
   */
  ghost predicate StableStretch(s: State, a: nat, m: nat, lo: nat, hi: nat, pool: seq<Transport>, down: set<nat>) {
    && a + m <= |s.picks| && lo <= hi <= |s.past|
    && (forall k :: lo <= k < hi ==> s.past[k].pool == pool && s.past[k].down == down)
    && (forall i :: a <= i < a + m ==> lo <= s.picks[i].times.at && s.picks[i].done < hi)
  }

  /** The tunnels of `pool` that are healthy when those in `down` are not, in pool order. */
  function HealthyOf(pool: seq<Transport>, down: set<nat>): seq<Transport> {
    Keep(pool, Readings(pool, down))
  }

  /** Every pick of a stable stretch chooses from exactly the healthy tunnels of the pool. */
  lemma StablePickSeesHealthy(s: State, a: nat, m: nat, lo: nat, hi: nat, pool: seq<Transport>, down: set<nat>, i: nat)
    requires Inv(s) && StableStretch(s, a, m, lo, hi, pool, down) && a <= i < a + m
    ensures s.picks[i].kept == HealthyOf(pool, down)
  {
    assert PickOk(s.past, s.picks[i], i);
    QuietPickFiltersOnce(s.past, s.picks[i].times, down);
  }

  /** In a stable stretch, pick number i chooses healthy tunnel number (i mod 2^64) mod n. */
  lemma StableChoice(s: State, a: nat, m: nat, lo: nat, hi: nat, pool: seq<Transport>, down: set<nat>, i: nat, j: nat)
    requires Inv(s) && StableStretch(s, a, m, lo, hi, pool, down) && a <= i < a + m
    requires Distinct(pool) && j < |HealthyOf(pool, down)|
    ensures s.picks[i].chosen == HealthyOf(pool, down)[j] <==> i % WORD % |HealthyOf(pool, down)| == j
  {
    var healthy := HealthyOf(pool, down);
    StablePickSeesHealthy(s, a, m, lo, hi, pool, down, i);
    assert PickOk(s.past, s.picks[i], i);
    KeptDistinct(pool, Readings(pool, down));
    SameIndexIffSameTunnel(healthy, i % WORD % |healthy|, j);
  }

  lemma {:induction false} HitsCounted(picks: seq<Pick>, a: nat, m: nat, t: Transport, n: nat, j: nat)
    requires a + m <= |picks| && n > 0
    requires forall i :: a <= i < a + m ==> (picks[i].chosen == t <==> i % WORD % n == j)
    ensures TimesChosen(picks, a, m, t) == Hits(WORD, a, m, n, j)
    decreases m
  {
    if m > 0 {
      HitsCounted(picks, a, m - 1, t, n, j);
      assert picks[a + m - 1].chosen == t <==> (a + (m - 1)) % WORD % n == j;
    }
  }

  lemma ChosenIsHits(s: State, a: nat, m: nat, lo: nat, hi: nat, pool: seq<Transport>, down: set<nat>, j: nat)
    requires Inv(s) && StableStretch(s, a, m, lo, hi, pool, down) && Distinct(pool) && j < |HealthyOf(pool, down)|
    ensures TimesChosen(s.picks, a, m, HealthyOf(pool, down)[j]) == Hits(WORD, a, m, |HealthyOf(pool, down)|, j)
  {
    var healthy := HealthyOf(pool, down);
    forall i | a <= i < a + m
      ensures s.picks[i].chosen == healthy[j] <==> i % WORD % |healthy| == j
    {
      StableChoice(s, a, m, lo, hi, pool, down, i, j);
    }
    HitsCounted(s.picks, a, m, healthy[j], |healthy|, j);
  }

  lemma SameIndexIffSameTunnel(tunnels: seq<Transport>, j: nat, k: nat)
    requires j < |tunnels| && k < |tunnels| && Distinct(tunnels)
    ensures tunnels[j] == tunnels[k] <==> j == k
  {
  }

  /**
   * Round-robin fairness under any interleaving of callers: while pool and health flags are
   * stable, any m consecutive successful picks, whoever makes them and whatever fails in between,
   * choose each of the n healthy tunnels floor(m/n) or ceil(m/n) times if no wrap intervenes or n
   * divides 2^64.
   */
  lemma {:induction false} FairPicks(states: seq<State>, actions: seq<Action>, i: nat, a: nat, m: nat,
                  lo: nat, hi: nat, pool: seq<Transport>, down: set<nat>, j: nat)
    requires Execution(states, actions) && i < |states|
    requires StableStretch(states[i], a, m, lo, hi, pool, down) && Distinct(pool) && j < |HealthyOf(pool, down)|
    requires a % WORD + m <= WORD || WORD % |HealthyOf(pool, down)| == 0
    ensures var n := |HealthyOf(pool, down)|;
            m / n <= TimesChosen(states[i].picks, a, m, HealthyOf(pool, down)[j]) <= (m + n - 1) / n
  {
    ExecutionsKeepInv(states, actions, i);
    ChosenIsHits(states[i], a, m, lo, hi, pool, down, j);
    FairHits(a, m, |HealthyOf(pool, down)|, j);
  }

  lemma {:induction false} FairHits(a: nat, m: nat, n: nat, j: nat)
    requires j < n && (a % WORD + m <= WORD || WORD % n == 0)
    ensures m / n <= Hits(WORD, a, m, n, j) <= (m + n - 1) / n
  {
    if WORD % n == 0 {
      FairWhenDividing(WORD, a, m, n, j);
    } else {
      HitsReduced(WORD, a, m, n, j);
      FairWithoutWrap(WORD, a % WORD, m, n, j);
    }
  }

  /** Across wraps, two tunnels' shares differ by at most one more than the number of wraps. */
  lemma NearlyFairPicks(states: seq<State>, actions: seq<Action>, i: nat, a: nat, m: nat,
                        lo: nat, hi: nat, pool: seq<Transport>, down: set<nat>, j: nat, k: nat)
    requires Execution(states, actions) && i < |states|
    requires StableStretch(states[i], a, m, lo, hi, pool, down) && Distinct(pool)
    requires j < |HealthyOf(pool, down)| && k < |HealthyOf(pool, down)|
    ensures TimesChosen(states[i].picks, a, m, HealthyOf(pool, down)[j])
         <= TimesChosen(states[i].picks, a, m, HealthyOf(pool, down)[k]) + Wraps(WORD, a % WORD, m) + 1
  {
    var n := |HealthyOf(pool, down)|;
    ExecutionsKeepInv(states, actions, i);
    ChosenIsHits(states[i], a, m, lo, hi, pool, down, j);
    ChosenIsHits(states[i], a, m, lo, hi, pool, down, k);
    HitsReduced(WORD, a, m, n, j);
    HitsReduced(WORD, a, m, n, k);
    SpreadBoundedByWraps(WORD, a % WORD, m, n, j, k);
  }

  /** Two consecutive picks among n >= 2 stable healthy tunnels repeat exactly at a wrap with n dividing 2^64-1. */
  lemma ConsecutivePicks(states: seq<State>, actions: seq<Action>, i: nat, a: nat,
                         lo: nat, hi: nat, pool: seq<Transport>, down: set<nat>)
    requires Execution(states, actions) && i < |states|
    requires StableStretch(states[i], a, 2, lo, hi, pool, down) && Distinct(pool) && |HealthyOf(pool, down)| >= 2
    ensures var picks := states[i].picks;
            picks[a].chosen == picks[a + 1].chosen <==>
              a % WORD == WORD - 1 && (WORD - 1) % |HealthyOf(pool, down)| == 0
  {
    ExecutionsKeepInv(states, actions, i);
    var picks, healthy := states[i].picks, HealthyOf(pool, down);
    StablePickSeesHealthy(states[i], a, 2, lo, hi, pool, down, a);
    StablePickSeesHealthy(states[i], a, 2, lo, hi, pool, down, a + 1);
    assert PickOk(states[i].past, picks[a], a) && PickOk(states[i].past, picks[a + 1], a + 1);
    KeptDistinct(pool, Readings(pool, down));
    SameIndexIffSameTunnel(healthy, a % WORD % |healthy|, (a + 1) % WORD % |healthy|);
    ModStep(a, WORD);
    ConsecutiveRepeat(WORD, a % WORD, |healthy|);
  }
}
