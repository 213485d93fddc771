/** The two relays of the proxy as they run: mutable fields driven by a schedule of I/O outcomes. */
module Relay {
  import opened Bytes
  import opened RelaySpec
  import RelayProofs
  import RelaySession

  /** Keeps one agent stream open across any number of server connections. */
  class BufferedRelay {
    var buffer: seq<byte>
    var agentConnected: bool
    var totalBytesUp: nat
    var totalBytesDown: nat
    ghost var run: Run  // every call made so far

    ghost function State(): RelaySpec.Relay
      reads this
    {
      RelaySpec.Relay(buffer, agentConnected, totalBytesUp, totalBytesDown)
    }

    ghost predicate Valid()
      reads this
    {
      ValidRun(run) && run.states[|run.calls|] == State()
    }

    constructor ()
      ensures Valid() && State() == NewRelay && run == NewRun
    {
      buffer, agentConnected, totalBytesUp, totalBytesDown := [], true, 0, 0;
      run := NewRun;
    }

    /** The `select!` loop, entered with the carried chunk flushed. */
    method RelayEvents(carry: seq<byte>, script: seq<Event>) returns (io: Progress)
      requires ValidScript(script) && agentConnected && buffer == []
      modifies this`buffer, this`agentConnected
      ensures io == Play(Flushed(carry), script)
      ensures buffer == io.buffer && agentConnected == io.alive
    {
      var up: nat, down: nat, over, cancelled := |carry|, 0, false, false;
      var agentRead, serverGot, serverRead, agentGot, lost: seq<byte> := [], carry, [], [], [];
      var i := 0;
      ghost var p := Flushed(carry);
      while i < |script| && !over && !cancelled
        invariant 0 <= i <= |script|
        invariant p == Progress(up, down, buffer, agentConnected, over, cancelled, lost,
                                agentRead, serverGot, serverRead, agentGot)
        invariant Play(p, script[i..]) == Play(Flushed(carry), script)
      {
        var e := script[i];
        RelaySession.PlayStep(p, script, i);
        p := Step(p, e);
        match e {
          case AgentReady(read, write) =>
            match read {
              case Data(chunk) =>
                agentRead := agentRead + chunk;
                serverGot := serverGot + Delivered(chunk, write);
                match write {
                  case Accepted => up := up + |chunk|;
                  case Broken(_) =>
                    buffer := buffer + chunk;
                    over := true;
                  case Cancelled(_) =>
                    lost := lost + chunk;
                    cancelled := true;
                }
              case _ =>
                agentConnected := false;
                over := true;
            }
          case ServerReady(read, write) =>
            match read {
              case Data(chunk) =>
                serverRead := serverRead + chunk;
                agentGot := agentGot + Delivered(chunk, write);
                match write {
                  case Accepted => down := down + |chunk|;
                  case Broken(_) =>
                    agentConnected := false;
                    over := true;
                  case Cancelled(_) => cancelled := true;
                }
              case _ =>
                over := true;
            }
        }
        i := i + 1;
      }
      io := Progress(up, down, buffer, agentConnected, over, cancelled, lost, agentRead, serverGot, serverRead, agentGot);
    }

    /** Relays through one server connection until it breaks, the agent leaves, or the call is dropped. */
    method RelayThrough(c: Call) returns (r: Record)
      requires Valid() && ValidCall(buffer, c)
      modifies this
      ensures Valid()
      ensures (State(), r) == Through(old(State()), c)
      ensures run == Extend(old(run), c)
    {
      RelayProofs.ExtendIsRun(run, c);
      run := Extend(run, c);
      if !agentConnected {
        r := Record(Rejected, buffer, Fresh.(buffer := buffer, alive := false, over := true));
        return;
      }
      var carry := buffer;
      if buffer != [] {
        buffer := [];
        if !c.flush.Accepted? {
          var io := Fresh.(serverGot := Delivered(carry, c.flush), lost := carry);
          r := if c.flush.Broken? then Record(FlushFailed, carry, io.(over := true))
               else Record(Dropped, carry, io.(cancelled := true));
          return;
        }
      }
      var io := RelayEvents(carry, c.script);
      if io.over {
        totalBytesUp := totalBytesUp + io.up;
        totalBytesDown := totalBytesDown + io.down;
        r := Record(Finished, carry, io);
      } else {
        r := Record(Dropped, carry, io);
      }
    }

    /** A dead relay holds no byte of the agent, and a held chunk fits one read buffer. */
    method AgentAlive() returns (alive: bool)
      requires Valid()
      ensures alive == agentConnected
      ensures !alive ==> buffer == []
      ensures |buffer| <= BUF_SIZE
    {
      RelayProofs.RunReachable(run, |run.calls|);
      alive := agentConnected;
    }

    /** Cumulative counts: exactly the sums of what the finished calls returned. */
    method TotalStats() returns (bytesUp: nat, bytesDown: nat)
      requires Valid()
      ensures bytesUp == RelayProofs.SumUp(run.records, |run.calls|)
      ensures bytesDown == RelayProofs.SumDown(run.records, |run.calls|)
    {
      RelayProofs.UpstreamTotals(run, |run.calls|);
      RelayProofs.DownstreamTotals(run, |run.calls|);
      bytesUp, bytesDown := totalBytesUp, totalBytesDown;
    }
  }

  /** Bytes and counts of one `RelayStream::relay` call, with the two published counters. */
  datatype Stream = Stream(
    up: nat, down: nat, counterUp: nat, counterDown: nat, over: bool, cancelled: bool,
    serverGot: seq<byte>, agentGot: seq<byte>)

  function StreamStep(s: Stream, e: Event): Stream
    requires ValidEvent(e)
  {
    match e
    case AgentReady(Data(c), w) =>
      var q := s.(serverGot := s.serverGot + Delivered(c, w));
      if w.Accepted? then q.(up := s.up + |c|, counterUp := s.up + |c|)
      else q.(over := w.Broken?, cancelled := w.Cancelled?)
    case ServerReady(Data(c), w) =>
      var q := s.(agentGot := s.agentGot + Delivered(c, w));
      if w.Accepted? then q.(down := s.down + |c|, counterDown := s.down + |c|)
      else q.(over := w.Broken?, cancelled := w.Cancelled?)
    case _ => s.(over := true)
  }

  function StreamPlay(s: Stream, script: seq<Event>): Stream
    requires ValidScript(script)
    decreases |script|
  {
    if s.over || s.cancelled || script == [] then s else StreamPlay(StreamStep(s, script[0]), script[1..])
  }

  function StreamStart(counterUp: nat, counterDown: nat): Stream {
    Stream(0, 0, counterUp, counterDown, false, false, [], [])
  }

  /** One agent, one server, both done when the relay ends. */
  class RelayStream {
    var bytesRelayedUp: nat
    var bytesRelayedDown: nat

    constructor ()
      ensures bytesRelayedUp == 0 && bytesRelayedDown == 0
    {
      bytesRelayedUp, bytesRelayedDown := 0, 0;
    }

    method Relay(script: seq<Event>)
      returns (up: nat, down: nat, serverGot: seq<byte>, agentGot: seq<byte>, over: bool, cancelled: bool)
      requires ValidScript(script)
      modifies this
      ensures Stream(up, down, bytesRelayedUp, bytesRelayedDown, over, cancelled, serverGot, agentGot)
           == StreamPlay(StreamStart(old(bytesRelayedUp), old(bytesRelayedDown)), script)
      ensures bytesRelayedUp == (if up == 0 then old(bytesRelayedUp) else up)
      ensures bytesRelayedDown == (if down == 0 then old(bytesRelayedDown) else down)
    {
      CountersStart(StreamStart(bytesRelayedUp, bytesRelayedDown), bytesRelayedUp, bytesRelayedDown, script);
      up, down, serverGot, agentGot, over, cancelled := 0, 0, [], [], false, false;
      var i := 0;
      ghost var start := StreamStart(bytesRelayedUp, bytesRelayedDown);
      ghost var s := start;
      while i < |script| && !over && !cancelled
        invariant 0 <= i <= |script|
        invariant s == Stream(up, down, bytesRelayedUp, bytesRelayedDown, over, cancelled, serverGot, agentGot)
        invariant StreamPlay(s, script[i..]) == StreamPlay(start, script)
      {
        var e := script[i];
        s := StreamStep(s, e);
        match e {
          case AgentReady(read, write) =>
            match read {
              case Data(chunk) =>
                serverGot := serverGot + Delivered(chunk, write);
                match write {
                  case Accepted =>
                    up := up + |chunk|;
                    bytesRelayedUp := up;
                  case Broken(_) => over := true;
                  case Cancelled(_) => cancelled := true;
                }
              case _ =>
                over := true;
            }
          case ServerReady(read, write) =>
            match read {
              case Data(chunk) =>
                agentGot := agentGot + Delivered(chunk, write);
                match write {
                  case Accepted =>
                    down := down + |chunk|;
                    bytesRelayedDown := down;
                  case Broken(_) => over := true;
                  case Cancelled(_) => cancelled := true;
                }
              case _ =>
                over := true;
            }
        }
        assert script[i..][1..] == script[i + 1..];
        i := i + 1;
      }
    }
  }

  /** The stream relay in state `s` has done what a buffered session in state `p` has done. */
  ghost predicate Mirrors(s: Stream, p: Progress) {
    && s.up == p.up && s.down == p.down && s.over == p.over && s.cancelled == p.cancelled
    && s.serverGot == p.serverGot && s.agentGot == p.agentGot
    && s.counterUp == s.up && s.counterDown == s.down
  }

  lemma {:induction false} PlaysMirror(s: Stream, p: Progress, script: seq<Event>)
    requires Mirrors(s, p) && ValidScript(script)
    ensures Mirrors(StreamPlay(s, script), Play(p, script))
    decreases |script|
  {
    if !p.over && !p.cancelled && script != [] {
      PlaysMirror(StreamStep(s, script[0]), Step(p, script[0]), script[1..]);
    }
  }

  ghost predicate CountersFollow(s: Stream, counterUp: nat, counterDown: nat) {
    && s.counterUp == (if s.up == 0 then counterUp else s.up)
    && s.counterDown == (if s.down == 0 then counterDown else s.down)
  }

  /**
   * The published counters of a repeated relay: those of this call once it has relayed a byte in
   * the direction, and those of the call before until then.
   */
  lemma {:induction false} CountersStart(s: Stream, counterUp: nat, counterDown: nat, script: seq<Event>)
    requires CountersFollow(s, counterUp, counterDown) && ValidScript(script)
    ensures CountersFollow(StreamPlay(s, script), counterUp, counterDown)
    decreases |script|
  {
    if !s.over && !s.cancelled && script != [] {
      CountersStart(StreamStep(s, script[0]), counterUp, counterDown, script[1..]);
    }
  }

  /**
   * For every schedule, and at every loop head (every prefix of it), a first `relay` and a single
   * session of a fresh buffered relay have delivered the same bytes to both peers and counted the
   * same, and the published counters equal the local ones.
   */
  lemma FirstRelayMirrorsFreshSession(c: Call, head: nat)
    requires ValidCall([], c) && head <= |c.script|
    ensures var io := Through(NewRelay, Call(c.flush, c.script[..head])).1.io;
            Mirrors(StreamPlay(StreamStart(0, 0), c.script[..head]), io)
  {
    PlaysMirror(StreamStart(0, 0), Fresh, c.script[..head]);
  }
}
