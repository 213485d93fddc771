/**
 * Tunnel selection under concurrency: any number of callers pick while other tasks add and
 * remove tunnels and flip health flags. Every step is one atomic action; a pick takes many.
 */
module Selection {
  import opened Pool
  import opened Router

  /** The pool's lock as a picker's `try_read` sees it: a queued writer already shuts it. */
  datatype Writer = NoWriter | Waiting | Holding

  /** Everything shared: the list, the handles of the unhealthy tunnels, and the write lock. */
  datatype World = World(pool: seq<Transport>, down: set<nat>, writer: Writer)

  /** When a pick looked at what: its snapshot, the pool's readings, the router's readings. */
  datatype Times = Times(at: nat, first: seq<nat>, second: seq<nat>)

  datatype Picker =
    | Idle
    | PoolPass(times: Times, kept: seq<Transport>)  // holds the read lock
    | RouterPass(times: Times, input: seq<Transport>, kept: seq<Transport>)
    | Returned(times: Times, result: PickResult)

  /** A successful pick: when it looked and when it chose, the ticket, the list it indexed, the tunnel returned. */
  datatype Pick = Pick(times: Times, done: nat, ticket: nat, kept: seq<Transport>, chosen: Transport)

  /** `past` records every world so far, the current one last; `picks` the successful picks in ticket order. */
  datatype State = State(past: seq<World>, pickers: seq<Picker>, counter: nat, picks: seq<Pick>)

  function Now(s: State): nat
    requires s.past != []
  {
    |s.past| - 1
  }

  function Current(s: State): World
    requires s.past != []
  {
    s.past[|s.past| - 1]
  }

  predicate UpAt(past: seq<World>, t: Transport, k: nat)
    requires k < |past|
  {
    t.handle !in past[k].down
  }

  ghost predicate Init(s: State) {
    && |s.past| == 1 && s.past[0].writer == NoWriter
    && (forall p :: 0 <= p < |s.pickers| ==> s.pickers[p] == Idle)
    && s.counter == 0 && s.picks == []
  }

  datatype Action =
    | RequestWrite | EnterWrite | AddTunnel(t: Transport) | RemoveTunnel(id: string) | ExitWrite
    | SetHealth(handle: nat, healthy: bool)
    | Snapshot(p: nat) | PoolRead(p: nat) | RouterRead(p: nat) | Choose(p: nat)

  ghost predicate NoReaders(s: State) {
    forall p :: 0 <= p < |s.pickers| ==> !s.pickers[p].PoolPass?
  }

  ghost predicate Enabled(s: State, a: Action)
    requires s.past != []
  {
    match a
    case RequestWrite => Current(s).writer == NoWriter
    case EnterWrite => Current(s).writer == Waiting && NoReaders(s)
    case AddTunnel(_) => Current(s).writer == Holding
    case RemoveTunnel(_) => Current(s).writer == Holding
    case ExitWrite => Current(s).writer == Holding
    case SetHealth(_, _) => true
    case Snapshot(p) => p < |s.pickers| && (s.pickers[p].Idle? || s.pickers[p].Returned?)
    case PoolRead(p) =>
      p < |s.pickers| && s.pickers[p].PoolPass? && |s.pickers[p].times.first| <= |Current(s).pool|
    case RouterRead(p) =>
      p < |s.pickers| && s.pickers[p].RouterPass? && |s.pickers[p].times.second| < |s.pickers[p].input|
    case Choose(p) =>
      p < |s.pickers| && s.pickers[p].RouterPass? && |s.pickers[p].times.second| == |s.pickers[p].input|
  }

  /** The shared world after an action. */
  ghost function After(w: World, a: Action): World {
    match a
    case RequestWrite => w.(writer := Waiting)
    case EnterWrite => w.(writer := Holding)
    case AddTunnel(t) => w.(pool := w.pool + [t])
    case RemoveTunnel(id) => w.(pool := Without(w.pool, id))
    case ExitWrite => w.(writer := NoWriter)
    case SetHealth(h, ok) => w.(down := if ok then w.down - {h} else w.down + {h})
    case _ => w
  }

  /** A picker's own progress. All reads see the world in which the action happens. */
  ghost function Advance(s: State, k: Picker, a: Action): Picker
    requires s.past != []
  {
    var w, now := Current(s), Now(s);
    match a
    case Snapshot(_) =>
      if w.writer == NoWriter then PoolPass(Times(now, [], []), []) else Returned(Times(now, [], []), NoHealthyTunnels)
    case PoolRead(_) =>
      if !k.PoolPass? then k
      else if |k.times.first| < |w.pool| then
        var t := w.pool[|k.times.first|];
        PoolPass(k.times.(first := k.times.first + [now]), k.kept + (if UpAt(s.past, t, now) then [t] else []))
      else
        RouterPass(k.times, k.kept, [])
    case RouterRead(_) =>
      if !k.RouterPass? || |k.times.second| >= |k.input| then k
      else
        var t := k.input[|k.times.second|];
        k.(times := k.times.(second := k.times.second + [now]),
           kept := k.kept + (if UpAt(s.past, t, now) then [t] else []))
    case Choose(_) =>
      if !k.RouterPass? then k
      else if k.kept == [] then Returned(k.times, NoHealthyTunnels)
      else Returned(k.times, Picked(k.kept[s.counter % |k.kept|]))
    case _ => k
  }

  ghost predicate ByPicker(a: Action) {
    a.Snapshot? || a.PoolRead? || a.RouterRead? || a.Choose?
  }

  ghost function Next(s: State, a: Action): State
    requires s.past != [] && Enabled(s, a)
  {
    var past := s.past + [After(Current(s), a)];
    if !ByPicker(a) then s.(past := past)
    else
      var k := s.pickers[a.p];
      var s' := s.(past := past, pickers := s.pickers[a.p := Advance(s, k, a)]);
      if a.Choose? && k.kept != [] then
        s'.(counter := (s.counter + 1) % WORD,
            picks := s.picks + [Pick(k.times, Now(s), s.counter, k.kept, Advance(s, k, a).result.transport)])
      else s'
  }

  /** An interleaving of any number of actions, with the states it goes through. */
  ghost predicate Execution(states: seq<State>, actions: seq<Action>) {
    && |states| == |actions| + 1
    && Init(states[0])
    && forall i :: 0 <= i < |actions| ==> Follows(states[i], actions[i], states[i + 1])
  }

  ghost predicate Follows(s: State, a: Action, s': State) {
    s.past != [] && Enabled(s, a) && s' == Next(s, a)
  }
}
