/** What one session of the rotating relay keeps, and how its first fault determines it. */
module RelaySession {
  import opened Bytes
  import opened RelaySpec

  /** The agent's bytes that were read and not acknowledged: kept for the next server, or lost. */
  ghost function Unwritten(p: Progress): seq<byte> {
    p.buffer + p.lost
  }

  /** Everything a session that started from `carry` keeps between events. */
  ghost predicate Session(carry: seq<byte>, p: Progress) {
    Upstream(carry, p) && Downstream(p) && (!p.alive ==> p.over)
  }

  ghost predicate Upstream(carry: seq<byte>, p: Progress) {
    && p.up <= |p.serverGot|
    && carry + p.agentRead == p.serverGot[..p.up] + Unwritten(p)
    && p.serverGot[p.up..] <= Unwritten(p)
    && (Unwritten(p) != [] ==> |p.serverGot| - p.up < |Unwritten(p)| <= BUF_SIZE && p.alive && (p.over || p.cancelled))
    && (p.buffer == [] || p.lost == [])
  }

  ghost predicate Downstream(p: Progress) {
    && p.agentGot <= p.serverRead
    && p.down <= |p.agentGot| < p.down + BUF_SIZE
    && (p.alive && !p.cancelled ==> p.agentGot == p.serverRead && p.down == |p.agentGot|)
  }

  /** A chunk that the server took goes to the acknowledged bytes. */
  lemma AcceptedKeepsUpstream(carry: seq<byte>, p: Progress, chunk: seq<byte>)
    requires Upstream(carry, p) && Unwritten(p) == []
    ensures Upstream(carry, p.(agentRead := p.agentRead + chunk, serverGot := p.serverGot + chunk, up := p.up + |chunk|))
  {
    assert p.serverGot[..p.up] == p.serverGot == carry + p.agentRead;
    var got := p.serverGot + chunk;
    assert got[..p.up + |chunk|] == got && got[p.up + |chunk|..] == [];
    assert carry + (p.agentRead + chunk) == (carry + p.agentRead) + chunk;
  }

  /** A chunk of which the server took only `k` bytes stays unwritten. */
  lemma RefusedKeepsUpstream(carry: seq<byte>, p: Progress, chunk: seq<byte>, k: nat, q: Progress)
    requires Upstream(carry, p) && Unwritten(p) == [] && k < |chunk| <= BUF_SIZE
    requires q.up == p.up && q.agentRead == p.agentRead + chunk && q.serverGot == p.serverGot + chunk[..k]
    requires Unwritten(q) == chunk && (q.buffer == [] || q.lost == []) && q.alive && (q.over || q.cancelled)
    ensures Upstream(carry, q)
  {
    assert p.serverGot[..p.up] == p.serverGot == carry + p.agentRead;
    assert q.serverGot[..q.up] == p.serverGot && q.serverGot[q.up..] == chunk[..k];
    assert carry + (p.agentRead + chunk) == (carry + p.agentRead) + chunk;
  }

  lemma StepKeepsUpstream(carry: seq<byte>, p: Progress, e: Event)
    requires Session(carry, p) && !p.over && !p.cancelled && ValidEvent(e)
    ensures Upstream(carry, Step(p, e))
  {
    if e.AgentReady? && e.read.Data? {
      if e.write.Accepted? {
        AcceptedKeepsUpstream(carry, p, e.read.chunk);
      } else {
        assert [] + e.read.chunk == e.read.chunk == e.read.chunk + [];
        RefusedKeepsUpstream(carry, p, e.read.chunk, e.write.k, Step(p, e));
      }
    }
  }

  lemma {:induction false} StepKeepsSession(carry: seq<byte>, p: Progress, e: Event)
    requires Session(carry, p) && !p.over && !p.cancelled && ValidEvent(e)
    ensures Session(carry, Step(p, e))
  {
    StepKeepsUpstream(carry, p, e);
  }

  lemma {:induction false} PlayKeepsSession(carry: seq<byte>, p: Progress, script: seq<Event>)
    requires Session(carry, p) && ValidScript(script)
    ensures Session(carry, Play(p, script))
    decreases |script|
  {
    if !p.over && !p.cancelled && script != [] {
      StepKeepsSession(carry, p, script[0]);
      PlayKeepsSession(carry, Step(p, script[0]), script[1..]);
    }
  }

  /** One round of the loop. */
  lemma PlayStep(p: Progress, script: seq<Event>, i: nat)
    requires ValidScript(script) && i < |script| && !p.over && !p.cancelled
    ensures Play(p, script[i..]) == Play(Step(p, script[i]), script[i + 1..])
  {
    assert script[i..][1..] == script[i + 1..];
  }

  /** A server sees a prefix of the carried chunk followed by what the agent sent. */
  lemma SessionServerPrefix(carry: seq<byte>, p: Progress)
    requires Session(carry, p)
    ensures p.serverGot <= carry + p.agentRead
  {
    assert p.serverGot == p.serverGot[..p.up] + p.serverGot[p.up..];
  }

  /** The agent side failed: end of stream, read error, or a write to the agent broke. */
  predicate AgentFault(e: Event) {
    (e.AgentReady? && !e.read.Data?) || (e.ServerReady? && e.read.Data? && e.write.Broken?)
  }

  /** The server side failed: end of stream, read error, or a write to the server broke. */
  predicate ServerFault(e: Event) {
    (e.ServerReady? && !e.read.Data?) || (e.AgentReady? && e.read.Data? && e.write.Broken?)
  }

  /** The call was cancelled while writing to either side. */
  predicate Interrupted(e: Event) {
    e.read.Data? && e.write.Cancelled?
  }

  predicate Fault(e: Event) {
    AgentFault(e) || ServerFault(e) || Interrupted(e)
  }

  /** Number of events before the first fault. */
  ghost function Healthy(script: seq<Event>): (n: nat)
    ensures n <= |script|
    ensures n < |script| ==> Fault(script[n])
  {
    if script == [] || Fault(script[0]) then 0 else 1 + Healthy(script[1..])
  }

  /** The chunk the agent (the server) sends with `e`, if any. */
  ghost function ChunkIf(e: Event, fromAgent: bool): seq<byte> {
    if e.AgentReady? == fromAgent && e.read.Data? then e.read.chunk else []
  }

  /** The chunks the agent (the server) sends before the first fault, in order: all are accepted. */
  ghost function Relayed(script: seq<Event>, fromAgent: bool): seq<byte> {
    if script == [] || Fault(script[0]) then [] else ChunkIf(script[0], fromAgent) + Relayed(script[1..], fromAgent)
  }

  /** What event `e` hands to the server (to the agent). */
  ghost function HandedOver(e: Event, toServer: bool): seq<byte>
    requires ValidEvent(e)
  {
    if e.AgentReady? == toServer && e.read.Data? then Delivered(e.read.chunk, e.write) else []
  }

  /** An event without fault relays its chunk and changes nothing else. */
  lemma HealthyStep(p: Progress, e: Event)
    requires ValidEvent(e) && !Fault(e)
    ensures var q, up, down := Step(p, e), ChunkIf(e, true), ChunkIf(e, false);
            q == p.(up := p.up + |up|, agentRead := p.agentRead + up, serverGot := p.serverGot + up,
                    down := p.down + |down|, serverRead := p.serverRead + down, agentGot := p.agentGot + down)
  {
  }

  /**
   * `q` is what a session in state `p` comes to when event `n` of `script` is its first fault:
   * everything before is relayed and counted, and of the faulty event only what its write took.
   */
  ghost predicate EndsAt(p: Progress, q: Progress, script: seq<Event>, n: nat)
    requires n <= |script| && ValidScript(script)
  {
    var up, down, stopped := Relayed(script, true), Relayed(script, false), n < |script|;
    && q.over == (stopped && !Interrupted(script[n]))
    && q.cancelled == (stopped && Interrupted(script[n]))
    && q.alive == !(stopped && AgentFault(script[n]))
    && q.up == p.up + |up| && q.down == p.down + |down|
    && q.buffer == (if stopped && !Interrupted(script[n]) then ChunkIf(script[n], true) else [])
    && q.lost == (if stopped && Interrupted(script[n]) then ChunkIf(script[n], true) else [])
    && q.agentRead == p.agentRead + up + (if stopped then ChunkIf(script[n], true) else [])
    && q.serverGot == p.serverGot + up + (if stopped then HandedOver(script[n], true) else [])
    && q.serverRead == p.serverRead + down + (if stopped then ChunkIf(script[n], false) else [])
    && q.agentGot == p.agentGot + down + (if stopped then HandedOver(script[n], false) else [])
  }

  lemma Shift(a: seq<byte>, b: seq<byte>, c: seq<byte>, d: seq<byte>)
    ensures (a + b) + c + d == a + (b + c) + d
  {
  }

  lemma {:induction false} EndsAtStep(p: Progress, q: Progress, script: seq<Event>, n: nat)
    requires ValidScript(script) && 0 < n <= |script| && !Fault(script[0])
    requires EndsAt(Step(p, script[0]), q, script[1..], n - 1)
    ensures EndsAt(p, q, script, n)
  {
    HealthyStep(p, script[0]);
    var up, down := ChunkIf(script[0], true), ChunkIf(script[0], false);
    var laterUp, laterDown := Relayed(script[1..], true), Relayed(script[1..], false);
    var stopped := n < |script|;
    assert stopped ==> script[1..][n - 1] == script[n];
    Shift(p.agentRead, up, laterUp, if stopped then ChunkIf(script[n], true) else []);
    Shift(p.serverGot, up, laterUp, if stopped then HandedOver(script[n], true) else []);
    Shift(p.serverRead, down, laterDown, if stopped then ChunkIf(script[n], false) else []);
    Shift(p.agentGot, down, laterDown, if stopped then HandedOver(script[n], false) else []);
  }

  /** In the middle of the loop. */
  ghost predicate Running(p: Progress) {
    !p.over && !p.cancelled && p.alive && p.buffer == [] && p.lost == []
  }

  lemma NothingBefore(a: seq<byte>, b: seq<byte>)
    ensures a + [] + b == a + b && a + [] == a
  {
  }

  lemma {:induction false} EndsAtOnce(p: Progress, script: seq<Event>)
    requires ValidScript(script) && Running(p) && Healthy(script) == 0
    ensures EndsAt(p, Play(p, script), script, 0)
  {
    if script == [] {
      NothingBefore(p.agentRead, []);
      NothingBefore(p.serverGot, []);
      NothingBefore(p.serverRead, []);
      NothingBefore(p.agentGot, []);
    } else {
      var e := script[0];
      assert Play(p, script) == Step(p, e);
      NothingBefore(p.agentRead, ChunkIf(e, true));
      NothingBefore(p.serverGot, HandedOver(e, true));
      NothingBefore(p.serverRead, ChunkIf(e, false));
      NothingBefore(p.agentGot, HandedOver(e, false));
    }
  }

  /**
   * A session is determined by its first fault: it relays and counts everything before it, ends
   * exactly there, keeps the agent alive unless the fault is the agent's, carries the chunk whose
   * write to the server broke, and loses the chunk whose write was cancelled.
   */
  lemma {:induction false} SessionEndsAtFirstFault(p: Progress, script: seq<Event>)
    requires ValidScript(script) && Running(p)
    ensures EndsAt(p, Play(p, script), script, Healthy(script))
    decreases |script|
  {
    var n := Healthy(script);
    if n == 0 {
      EndsAtOnce(p, script);
    } else {
      HealthyStep(p, script[0]);
      SessionEndsAtFirstFault(Step(p, script[0]), script[1..]);
      EndsAtStep(p, Play(p, script), script, n);
    }
  }
}
