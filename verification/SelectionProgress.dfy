/** Picks do complete: what a caller gets that nobody disturbs. */
module SelectionProgress {
  import opened Filter
  import opened Pool
  import opened Router
  import opened Selection
  import opened SelectionProofs

  /** `actions`, all of them enabled in turn, lead from `s` to `s'`. */
  ghost predicate Leads(s: State, actions: seq<Action>, s': State)
    decreases |actions|
  {
    if actions == [] then s == s'
    else s.past != [] && Enabled(s, actions[0]) && Leads(Next(s, actions[0]), actions[1..], s')
  }

  lemma LeadsFirst(s: State, a: Action, actions: seq<Action>, s': State)
    requires s.past != [] && Enabled(s, a) && Leads(Next(s, a), actions, s')
    ensures Leads(s, [a] + actions, s')
  {
    assert ([a] + actions)[1..] == actions;
  }

  lemma {:induction false} LeadsOn(s: State, first: seq<Action>, s1: State, second: seq<Action>, s2: State)
    requires Leads(s, first, s1) && Leads(s1, second, s2)
    ensures Leads(s, first + second, s2)
    decreases |first|
  {
    if first == [] {
      assert first + second == second;
    } else {
      LeadsOn(Next(s, first[0]), first[1..], s1, second, s2);
      LeadsFirst(s, first[0], first[1..] + second, s2);
      assert [first[0]] + (first[1..] + second) == first + second;
    }
  }

  /** From `s` to `s'` only picker `p` moved, and it has looked at one world only, `w`. */
  ghost predicate Alone(s: State, s': State, p: nat, from: nat, w: World) {
    && Inv(s') && p < |s'.pickers| && from <= Now(s')
    && (forall k :: from <= k < |s'.past| ==> s'.past[k] == w)
    && s'.counter == s.counter
    && (!s'.pickers[p].Idle? ==> s'.pickers[p].times.at == from)
  }

  lemma AloneNext(s: State, s1: State, p: nat, from: nat, w: World, a: Action)
    requires Alone(s, s1, p, from, w) && Enabled(s1, a) && (a == PoolRead(p) || a == RouterRead(p))
    requires !s1.pickers[p].Idle?
    ensures Alone(s, Next(s1, a), p, from, w)
  {
    StepKeepsInv(s1, a);
  }

  /** The pool's pass runs to its end. */
  lemma {:induction false} PoolPassCompletes(s: State, s1: State, p: nat, from: nat, w: World)
    returns (actions: seq<Action>, s2: State)
    requires Alone(s, s1, p, from, w) && s1.pickers[p].PoolPass?
    ensures Leads(s1, actions, s2) && Alone(s, s2, p, from, w)
    ensures s2.pickers[p].RouterPass? && s2.pickers[p].times.second == []
    decreases |w.pool| - |s1.pickers[p].times.first|
  {
    var k, a := s1.pickers[p], PoolRead(p);
    assert PickerOk(s1.past, k);
    assert Current(s1) == w;
    AloneNext(s, s1, p, from, w, a);
    var next := Next(s1, a);
    if |k.times.first| < |w.pool| {
      actions, s2 := PoolPassCompletes(s, next, p, from, w);
      LeadsFirst(s1, a, actions, s2);
      actions := [a] + actions;
    } else {
      actions, s2 := [a], next;
      LeadsFirst(s1, a, [], s2);
      assert [a] + [] == [a];
    }
  }

  /** So does the router's. */
  lemma {:induction false} RouterPassCompletes(s: State, s1: State, p: nat, from: nat, w: World)
    returns (actions: seq<Action>, s2: State)
    requires Alone(s, s1, p, from, w) && s1.pickers[p].RouterPass?
    ensures Leads(s1, actions, s2) && Alone(s, s2, p, from, w)
    ensures s2.pickers[p].RouterPass? && |s2.pickers[p].times.second| == |s2.pickers[p].input|
    decreases |s1.pickers[p].input| - |s1.pickers[p].times.second|
  {
    var k, a := s1.pickers[p], RouterRead(p);
    assert PickerOk(s1.past, k);
    if |k.times.second| < |k.input| {
      AloneNext(s, s1, p, from, w, a);
      actions, s2 := RouterPassCompletes(s, Next(s1, a), p, from, w);
      LeadsFirst(s1, a, actions, s2);
      actions := [a] + actions;
    } else {
      actions, s2 := [], s1;
    }
  }

  lemma SnapshotAlone(s: State, p: nat)
    requires Inv(s) && p < |s.pickers| && (s.pickers[p].Idle? || s.pickers[p].Returned?)
    requires Current(s).writer == NoWriter
    ensures Enabled(s, Snapshot(p)) && Next(s, Snapshot(p)).pickers[p].PoolPass?
    ensures Alone(s, Next(s, Snapshot(p)), p, Now(s), Current(s))
  {
    StepKeepsInv(s, Snapshot(p));
  }

  /** What is left after both passes over one world are its healthy tunnels. */
  lemma AloneKeepsHealthy(s: State, s1: State, p: nat, from: nat, w: World)
    requires Alone(s, s1, p, from, w) && s1.pickers[p].RouterPass?
    requires |s1.pickers[p].times.second| == |s1.pickers[p].input|
    ensures s1.pickers[p].kept == HealthyOf(w.pool, w.down)
  {
    var h := s1.pickers[p].times;
    assert PickerOk(s1.past, s1.pickers[p]);
    assert SameHealth(s1.past, h, w.down);
    QuietPickFiltersOnce(s1.past, h, w.down);
  }

  /**
   * From every state that can be reached, with the lock open, an idle caller that is left alone
   * completes its pick: with the tunnel that the ticket selects among the healthy ones, in pool
   * order, or with a refusal if there is none.
   */
  lemma UndisturbedPick(s: State, p: nat) returns (actions: seq<Action>, s': State)
    requires Inv(s) && p < |s.pickers| && (s.pickers[p].Idle? || s.pickers[p].Returned?)
    requires Current(s).writer == NoWriter
    ensures Leads(s, actions, s') && p < |s'.pickers| && s'.pickers[p].Returned?
    ensures var healthy := HealthyOf(Current(s).pool, Current(s).down);
            s'.pickers[p].result == if healthy == [] then NoHealthyTunnels else Picked(healthy[s.counter % |healthy|])
  {
    var from, w := Now(s), Current(s);
    SnapshotAlone(s, p);
    var s1 := Next(s, Snapshot(p));
    var asked, s2 := PoolPassCompletes(s, s1, p, from, w);
    var again, s3 := RouterPassCompletes(s, s2, p, from, w);
    AloneKeepsHealthy(s, s3, p, from, w);
    LeadsOn(s1, asked, s2, again, s3);
    s' := Next(s3, Choose(p));
    assert [Choose(p)][1..] == [];
    assert Leads(s3, [Choose(p)], s');
    LeadsOn(s1, asked + again, s3, [Choose(p)], s');
    actions := [Snapshot(p)] + (asked + again + [Choose(p)]);
    LeadsFirst(s, Snapshot(p), asked + again + [Choose(p)], s');
  }

  /** A writer that is left alone gets the lock, changes the pool and leaves the lock open. */
  lemma UndisturbedWrite(s: State, a: Action) returns (s': State)
    requires s.past != [] && Current(s).writer == NoWriter && NoReaders(s) && (a.AddTunnel? || a.RemoveTunnel?)
    ensures Leads(s, [RequestWrite, EnterWrite, a, ExitWrite], s') && s'.past != []
    ensures Current(s').writer == NoWriter && Current(s').down == Current(s).down
    ensures Current(s').pool == if a.AddTunnel? then Current(s).pool + [a.t] else Keep(Current(s).pool, Others(Current(s).pool, a.id))
  {
    var s1 := Next(s, RequestWrite);
    var s2 := Next(s1, EnterWrite);
    var s3 := Next(s2, a);
    s' := Next(s3, ExitWrite);
    assert Leads(s', [], s');
    LeadsFirst(s3, ExitWrite, [], s');
    LeadsFirst(s2, a, [ExitWrite], s');
    LeadsFirst(s1, EnterWrite, [a, ExitWrite], s');
    LeadsFirst(s, RequestWrite, [EnterWrite, a, ExitWrite], s');
    assert [ExitWrite] + [] == [ExitWrite] && [a] + [ExitWrite] == [a, ExitWrite];
    assert [EnterWrite] + [a, ExitWrite] == [EnterWrite, a, ExitWrite];
    assert [RequestWrite] + [EnterWrite, a, ExitWrite] == [RequestWrite, EnterWrite, a, ExitWrite];
  }

  /** A health flag can be set at any time, and nothing else changes. */
  lemma UndisturbedFlip(s: State, handle: nat, healthy: bool) returns (s': State)
    requires s.past != []
    ensures Leads(s, [SetHealth(handle, healthy)], s') && s'.past != [] && s'.pickers == s.pickers
    ensures Current(s').pool == Current(s).pool && Current(s').writer == Current(s).writer
    ensures forall h :: h in Current(s').down <==> (if h == handle then !healthy else h in Current(s).down)
  {
    s' := Next(s, SetHealth(handle, healthy));
    assert [SetHealth(handle, healthy)][1..] == [];
  }
}
