/**
 * Sessions of the rotating byte relay as a deterministic machine over an arbitrary
 * schedule of I/O outcomes, together with the bytes each peer observes.
 */
module RelaySpec {
  import opened Bytes

  /** Size of the read buffers, in bytes. */
  const BUF_SIZE: nat := 8 * 1024

  /** What one `read` yields. */
  datatype ReadResult = Eof | Data(chunk: seq<byte>) | ReadError

  /**
   * What one `write_all` does: take everything, fail after `k` bytes, or be cancelled after `k`
   * bytes because the owner of the call drops its future.
   */
  datatype WriteResult = Accepted | Broken(k: nat) | Cancelled(k: nat)

  /** One completed branch of the `select!`, with the outcome of the write it triggers. */
  datatype Event =
    | AgentReady(read: ReadResult, write: WriteResult)
    | ServerReady(read: ReadResult, write: WriteResult)

  /** A `write_all` of `n` bytes that does not complete has handed over fewer than `n`. */
  predicate ValidWrite(n: nat, w: WriteResult) {
    !w.Accepted? ==> w.k < n
  }

  /** A successful non-EOF read fills between one byte and the whole buffer. */
  predicate ValidEvent(e: Event) {
    e.read.Data? ==> 0 < |e.read.chunk| <= BUF_SIZE && ValidWrite(|e.read.chunk|, e.write)
  }

  predicate ValidScript(script: seq<Event>) {
    forall i :: 0 <= i < |script| ==> ValidEvent(script[i])
  }

  /** The bytes that reach the peer when `chunk` is written with outcome `w`. */
  function Delivered(chunk: seq<byte>, w: WriteResult): seq<byte>
    requires ValidWrite(|chunk|, w)
  {
    if w.Accepted? then chunk else chunk[..w.k]
  }

  /**
   * A session in progress: the two local counters, the carry buffer, the liveness flag, whether
   * the loop broke or the call was cancelled in a write, the agent's bytes that were neither
   * written nor kept, and the bytes that crossed each of the four directions since the start.
   */
  datatype Progress = Progress(
    up: nat, down: nat, buffer: seq<byte>, alive: bool, over: bool, cancelled: bool, lost: seq<byte>,
    agentRead: seq<byte>, serverGot: seq<byte>, serverRead: seq<byte>, agentGot: seq<byte>)

  function Step(p: Progress, e: Event): Progress
    requires ValidEvent(e)
  {
    match e
    case AgentReady(Data(c), w) =>
      var q := p.(agentRead := p.agentRead + c, serverGot := p.serverGot + Delivered(c, w));
      (match w
       case Accepted => q.(up := p.up + |c|)
       case Broken(_) => q.(buffer := p.buffer + c, over := true)
       case Cancelled(_) => q.(lost := p.lost + c, cancelled := true))
    case AgentReady(_, _) => p.(alive := false, over := true)
    case ServerReady(Data(c), w) =>
      var q := p.(serverRead := p.serverRead + c, agentGot := p.agentGot + Delivered(c, w));
      (match w
       case Accepted => q.(down := p.down + |c|)
       case Broken(_) => q.(alive := false, over := true)
       case Cancelled(_) => q.(cancelled := true))
    case ServerReady(_, _) => p.(over := true)
  }

  /** Runs the `select!` loop until it breaks, is cancelled or the schedule is exhausted. */
  function Play(p: Progress, script: seq<Event>): Progress
    requires ValidScript(script)
    decreases |script|
  {
    if p.over || p.cancelled || script == [] then p else Play(Step(p, script[0]), script[1..])
  }

  const Fresh: Progress := Progress(0, 0, [], true, false, false, [], [], [], [], [])

  /** The fields of `BufferedRelay` that survive from one call to the next. */
  datatype Relay = Relay(buffer: seq<byte>, alive: bool, totalUp: nat, totalDown: nat)

  const NewRelay: Relay := Relay([], true, 0, 0)

  /** One `relay_through` call: how the flush write goes, then the loop's schedule. */
  datatype Call = Call(flush: WriteResult, script: seq<Event>)

  /**
   * How a call ends. `Dropped` is a call whose future was dropped by its owner, while the
   * `select!` was waiting or in the middle of a write, so it never returned.
   */
  datatype Outcome = Rejected | FlushFailed | Finished | Dropped

  datatype Record = Record(outcome: Outcome, carry: seq<byte>, io: Progress)

  predicate ValidCall(buffer: seq<byte>, c: Call) {
    (buffer != [] ==> ValidWrite(|buffer|, c.flush)) && ValidScript(c.script)
  }

  /** State of the session right after the carried chunk has been flushed. */
  function Flushed(carry: seq<byte>): Progress {
    Fresh.(up := |carry|, serverGot := carry)
  }

  function Through(s: Relay, c: Call): (r: (Relay, Record))
    requires ValidCall(s.buffer, c)
  {
    if !s.alive then
      (s, Record(Rejected, s.buffer, Fresh.(buffer := s.buffer, alive := false, over := true)))
    else if s.buffer != [] && !c.flush.Accepted? then
      var io := Fresh.(serverGot := s.buffer[..c.flush.k], lost := s.buffer);
      var r := if c.flush.Broken? then Record(FlushFailed, s.buffer, io.(over := true))
               else Record(Dropped, s.buffer, io.(cancelled := true));
      (s.(buffer := []), r)
    else
      var p := Play(Flushed(s.buffer), c.script);
      var after := Relay(p.buffer, p.alive, s.totalUp, s.totalDown);
      if p.over then
        (after.(totalUp := s.totalUp + p.up, totalDown := s.totalDown + p.down), Record(Finished, s.buffer, p))
      else
        (after, Record(Dropped, s.buffer, p))
  }

  /** A history of calls on one relay: the states between them and what each call did. */
  datatype Run = Run(states: seq<Relay>, calls: seq<Call>, records: seq<Record>)

  ghost predicate ValidRun(t: Run) {
    && |t.states| == |t.calls| + 1 == |t.records| + 1
    && t.states[0] == NewRelay
    && forall k :: 0 <= k < |t.calls| ==> Connects(t, k)
  }

  /** Call `k` leads from state `k` to state `k + 1`. */
  ghost predicate Connects(t: Run, k: nat)
    requires k < |t.calls| && |t.states| == |t.calls| + 1 == |t.records| + 1
  {
    ValidCall(t.states[k].buffer, t.calls[k]) &&
    Through(t.states[k], t.calls[k]) == (t.states[k + 1], t.records[k])
  }

  const NewRun: Run := Run([NewRelay], [], [])

  function Extend(t: Run, c: Call): Run
    requires t.states != [] && ValidCall(t.states[|t.states| - 1].buffer, c)
  {
    var (s, r) := Through(t.states[|t.states| - 1], c);
    Run(t.states + [s], t.calls + [c], t.records + [r])
  }
}
