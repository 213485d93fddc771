/**
 * What every run of the rotating relay keeps: no byte of the agent is repeated or reordered beyond
 * the unacknowledged chunk, which ones are lost, and that the cumulative counters are exact.
 */
module RelayProofs {
  import opened Bytes
  import opened Folds
  import opened RelaySpec
  import opened RelaySession

  /** The call throws the carried chunk away: there is one and flushing it fails or is cancelled. */
  ghost predicate LosesCarry(s: Relay, c: Call) {
    s.alive && s.buffer != [] && !c.flush.Accepted?
  }

  /** The call reaches the `select!` loop. */
  ghost predicate Opens(s: Relay, c: Call) {
    s.alive && !LosesCarry(s, c)
  }

  /** The chunk from the agent (the server) with which the loop stops. */
  ghost function LastChunk(script: seq<Event>, fromAgent: bool): seq<byte> {
    if Healthy(script) < |script| then ChunkIf(script[Healthy(script)], fromAgent) else []
  }

  /** The loop stops because the call is cancelled in a write to the server (to the agent). */
  ghost predicate CancelledWrite(s: Relay, c: Call, toServer: bool) {
    && Opens(s, c) && Healthy(c.script) < |c.script| && Interrupted(c.script[Healthy(c.script)])
    && c.script[Healthy(c.script)].AgentReady? == toServer
  }

  /** The call runs to its end: it enters the loop, and some fault other than a cancelled write breaks it. */
  ghost predicate RunsToEnd(s: Relay, c: Call) {
    Opens(s, c) && Healthy(c.script) < |c.script| && !Interrupted(c.script[Healthy(c.script)])
  }

  /** The call never returns: dropped in a flush, in a write, or while waiting after a schedule without fault. */
  ghost predicate Abandoned(s: Relay, c: Call) {
    || (LosesCarry(s, c) && c.flush.Cancelled?)
    || (Opens(s, c) && (Healthy(c.script) == |c.script| || Interrupted(c.script[Healthy(c.script)])))
  }

  /** The bytes servers took during call `c`, i.e. whose `write_all` succeeded, read off the schedule. */
  ghost function UpAcked(s: Relay, c: Call): seq<byte> {
    if Opens(s, c) then s.buffer + Relayed(c.script, true) else []
  }

  /** Likewise the bytes the agent took. */
  ghost function DownAcked(s: Relay, c: Call): seq<byte> {
    if Opens(s, c) then Relayed(c.script, false) else []
  }

  /** The agent's bytes that call `c` throws away. */
  ghost function LostBytes(s: Relay, c: Call): seq<byte> {
    if LosesCarry(s, c) then s.buffer
    else if CancelledWrite(s, c, true) then LastChunk(c.script, true)
    else []
  }

  /** Bytes the relay lets go of in a call: the acknowledged ones and those it throws away. */
  ghost function SettledBy(s: Relay, c: Call): seq<byte> {
    UpAcked(s, c) + LostBytes(s, c)
  }

  ghost function ReadBy(rs: seq<Record>): seq<seq<byte>> {
    seq(|rs|, i requires 0 <= i < |rs| => rs[i].io.agentRead)
  }

  /** All bytes taken from the agent by the first `k` calls. */
  ghost function AgentRead(rs: seq<Record>, k: nat): seq<byte>
    requires k <= |rs|
  {
    Join(ReadBy(rs), k)
  }

  ghost function AckedPieces(t: Run): seq<seq<byte>>
    requires |t.calls| < |t.states|
  {
    seq(|t.calls|, i requires 0 <= i < |t.calls| => UpAcked(t.states[i], t.calls[i]))
  }

  /** All bytes servers acknowledged during the first `k` calls. */
  ghost function Acked(t: Run, k: nat): seq<byte>
    requires k <= |t.calls| < |t.states|
  {
    Join(AckedPieces(t), k)
  }

  ghost function AckedDownPieces(t: Run): seq<seq<byte>>
    requires |t.calls| < |t.states|
  {
    seq(|t.calls|, i requires 0 <= i < |t.calls| => DownAcked(t.states[i], t.calls[i]))
  }

  /** All bytes the agent acknowledged during the first `k` calls. */
  ghost function AckedDown(t: Run, k: nat): seq<byte>
    requires k <= |t.calls| < |t.states|
  {
    Join(AckedDownPieces(t), k)
  }

  ghost function SettledPieces(t: Run): seq<seq<byte>>
    requires |t.calls| < |t.states|
  {
    seq(|t.calls|, i requires 0 <= i < |t.calls| => SettledBy(t.states[i], t.calls[i]))
  }

  /** Bytes the relay no longer holds after `k` calls: acknowledged or lost. */
  ghost function Settled(t: Run, k: nat): seq<byte>
    requires k <= |t.calls| < |t.states|
  {
    Join(SettledPieces(t), k)
  }

  ghost function SentBy(rs: seq<Record>): seq<seq<byte>> {
    seq(|rs|, i requires 0 <= i < |rs| => rs[i].io.serverRead)
  }

  ghost function GotBy(rs: seq<Record>): seq<seq<byte>> {
    seq(|rs|, i requires 0 <= i < |rs| => rs[i].io.agentGot)
  }

  /** All bytes read from servers, and all bytes handed to the agent, during the first `k` calls. */
  ghost function ServerRead(rs: seq<Record>, k: nat): seq<byte>
    requires k <= |rs|
  {
    Join(SentBy(rs), k)
  }

  ghost function AgentGot(rs: seq<Record>, k: nat): seq<byte>
    requires k <= |rs|
  {
    Join(GotBy(rs), k)
  }

  ghost function ReturnedUp(rs: seq<Record>): seq<nat> {
    seq(|rs|, i requires 0 <= i < |rs| => if rs[i].outcome.Finished? then rs[i].io.up else 0)
  }

  ghost function ReturnedDown(rs: seq<Record>): seq<nat> {
    seq(|rs|, i requires 0 <= i < |rs| => if rs[i].outcome.Finished? then rs[i].io.down else 0)
  }

  /** Sum of the upstream counts the finished ones of the first `k` calls returned. */
  ghost function SumUp(rs: seq<Record>, k: nat): nat
    requires k <= |rs|
  {
    Sum(ReturnedUp(rs), k)
  }

  /** Likewise for the downstream counts. */
  ghost function SumDown(rs: seq<Record>, k: nat): nat
    requires k <= |rs|
  {
    Sum(ReturnedDown(rs), k)
  }

  ghost function UncountedUpBy(t: Run): seq<nat>
    requires |t.calls| == |t.records| < |t.states|
  {
    seq(|t.calls|, i requires 0 <= i < |t.calls| =>
      if Abandoned(t.states[i], t.calls[i]) then |UpAcked(t.states[i], t.calls[i])| else 0)
  }

  /** How many bytes servers acknowledged during the abandoned ones of the first `k` calls. */
  ghost function UncountedUp(t: Run, k: nat): nat
    requires k <= |t.calls| == |t.records| < |t.states|
  {
    Sum(UncountedUpBy(t), k)
  }

  ghost function UncountedDownBy(t: Run): seq<nat>
    requires |t.calls| == |t.records| < |t.states|
  {
    seq(|t.calls|, i requires 0 <= i < |t.calls| =>
      if Abandoned(t.states[i], t.calls[i]) then |DownAcked(t.states[i], t.calls[i])| else 0)
  }

  /** Likewise for the agent. */
  ghost function UncountedDown(t: Run, k: nat): nat
    requires k <= |t.calls| == |t.records| < |t.states|
  {
    Sum(UncountedDownBy(t), k)
  }

  /** The reachable states between calls. */
  ghost predicate Reachable(s: Relay) {
    |s.buffer| <= BUF_SIZE && (s.buffer != [] ==> s.alive)
  }

  /** What a logged call tells about the state it started from and the state it left. */
  ghost predicate Explains(s: Relay, r: Record, s': Relay) {
    && r.carry == s.buffer
    && s'.totalUp == s.totalUp + (if r.outcome.Finished? then r.io.up else 0)
    && s'.totalDown == s.totalDown + (if r.outcome.Finished? then r.io.down else 0)
    && if r.outcome.Rejected? then !s.alive && s' == s && Silent(r.io)
       else s.alive && Session(r.carry, r.io) && s'.buffer == r.io.buffer && s'.alive == r.io.alive
  }

  ghost predicate Silent(p: Progress) {
    p.up == p.down == 0 && p.agentRead == p.serverGot == p.serverRead == p.agentGot == p.lost == []
  }

  /** Counters, losses and delivered bytes of a logged call agree with its schedule. */
  ghost predicate Counts(s: Relay, c: Call, r: Record) {
    && (r.outcome.FlushFailed? <==> LosesCarry(s, c) && c.flush.Broken?)
    && (r.outcome.Finished? <==> RunsToEnd(s, c))
    && (r.outcome.Dropped? <==> Abandoned(s, c))
    && r.io.lost == LostBytes(s, c)
    && r.io.up == |UpAcked(s, c)| && UpAcked(s, c) <= r.io.serverGot
    && r.io.down == |DownAcked(s, c)| && DownAcked(s, c) <= r.io.agentGot
    && (Opens(s, c) ==> r.io.serverRead == DownAcked(s, c) + LastChunk(c.script, false))
    && (!Opens(s, c) ==> r.io.serverRead == [])
    && (Opens(s, c) && r.io.alive && LastChunk(c.script, false) != [] ==> CancelledWrite(s, c, false))
    && (CancelledWrite(s, c, false) ==> LastChunk(c.script, false) != [])
  }

  lemma FlushIsSession(carry: seq<byte>)
    ensures Session(carry, Flushed(carry))
  {
    var b := Flushed(carry);
    assert b.serverGot[..b.up] == carry && b.serverGot[b.up..] == [];
  }

  /** A flush that does not complete is a session that loses what it carried. */
  lemma LostFlushIsSession(carry: seq<byte>, io: Progress)
    requires io.up == io.down == 0 && io.buffer == io.agentRead == io.serverRead == io.agentGot == []
    requires io.lost == carry != [] && io.serverGot < carry && |carry| <= BUF_SIZE && io.alive && (io.over || io.cancelled)
    ensures Session(carry, io)
  {
    assert io.serverGot[..0] == [] && io.serverGot[0..] == io.serverGot;
  }

  lemma ThroughExplained(s: Relay, c: Call)
    requires ValidCall(s.buffer, c) && Reachable(s)
    ensures Explains(s, Through(s, c).1, Through(s, c).0) && Reachable(Through(s, c).0)
  {
    if Opens(s, c) {
      FlushIsSession(s.buffer);
      PlayKeepsSession(s.buffer, Flushed(s.buffer), c.script);
    } else if s.alive {
      LostFlushIsSession(s.buffer, Through(s, c).1.io);
    }
  }

  lemma ThroughCounts(s: Relay, c: Call)
    requires ValidCall(s.buffer, c)
    ensures Counts(s, c, Through(s, c).1)
  {
    if Opens(s, c) {
      SessionEndsAtFirstFault(Flushed(s.buffer), c.script);
    }
  }

  /** Histories grow one call at a time. */
  lemma ExtendIsRun(t: Run, c: Call)
    requires ValidRun(t) && ValidCall(t.states[|t.calls|].buffer, c)
    ensures ValidRun(Extend(t, c))
  {
    var u := Extend(t, c);
    forall k | 0 <= k < |u.calls|
      ensures Connects(u, k)
    {
      if k < |t.calls| {
        assert Connects(t, k);
      }
    }
  }

  /** A rejected call is exactly a call on a dead relay, and it changes nothing. */
  lemma RejectedIffDead(t: Run, k: nat)
    requires ValidRun(t) && k < |t.calls|
    ensures t.records[k].outcome.Rejected? <==> !t.states[k].alive
    ensures t.records[k].outcome.Rejected? ==> t.states[k + 1] == t.states[k]
  {
    assert Connects(t, k);
  }

  /** Bounded buffering and buffered-implies-alive hold between the calls of every run. */
  lemma {:induction false} RunReachable(t: Run, k: nat)
    requires ValidRun(t) && k <= |t.calls|
    ensures Reachable(t.states[k])
  {
    if k > 0 {
      RunReachable(t, k - 1);
      assert Connects(t, k - 1);
      ThroughExplained(t.states[k - 1], t.calls[k - 1]);
    }
  }

  /** Call `k` of a run, as seen between its two neighbouring states. */
  lemma CallExplained(t: Run, k: nat)
    requires ValidRun(t) && k < |t.calls|
    ensures Explains(t.states[k], t.records[k], t.states[k + 1])
    ensures Counts(t.states[k], t.calls[k], t.records[k])
    ensures Reachable(t.states[k])
  {
    RunReachable(t, k);
    assert Connects(t, k);
    ThroughExplained(t.states[k], t.calls[k]);
    ThroughCounts(t.states[k], t.calls[k]);
  }

  lemma Conserved(s: Relay, c: Call, r: Record, s': Relay)
    requires Explains(s, r, s') && Counts(s, c, r)
    ensures r.carry + r.io.agentRead == SettledBy(s, c) + s'.buffer
  {
    if r.outcome.Rejected? {
      assert r.carry + r.io.agentRead == r.carry;
    } else {
      assert r.io.serverGot[..r.io.up] == UpAcked(s, c);
      LostOrKept(UpAcked(s, c), r.io.buffer, r.io.lost);
    }
  }

  lemma LostOrKept(acked: seq<byte>, kept: seq<byte>, lost: seq<byte>)
    requires kept == [] || lost == []
    ensures acked + (kept + lost) == (acked + lost) + kept
  {
  }

  /** How call `k` ends, from its schedule and the state it meets. */
  lemma CallEnds(t: Run, k: nat)
    requires ValidRun(t) && k < |t.calls|
    ensures var s, c, outcome := t.states[k], t.calls[k], t.records[k].outcome;
            && (outcome.Rejected? <==> !s.alive)
            && (outcome.FlushFailed? <==> s.alive && s.buffer != [] && c.flush.Broken?)
            && (outcome.Finished? <==> RunsToEnd(s, c))
            && (outcome.Dropped? <==> Abandoned(s, c))
  {
    CallExplained(t, k);
  }

  /** One call conserves: what it started from and read is what it settled and left. */
  lemma CallConserves(t: Run, k: nat)
    requires ValidRun(t) && k < |t.calls|
    ensures t.records[k].carry == t.states[k].buffer
    ensures t.records[k].carry + t.records[k].io.agentRead == SettledBy(t.states[k], t.calls[k]) + t.states[k + 1].buffer
  {
    CallExplained(t, k);
    Conserved(t.states[k], t.calls[k], t.records[k], t.states[k + 1]);
  }

  /** The carried chunk before each call and after the last. */
  ghost function Carries(t: Run): seq<seq<byte>> {
    seq(|t.states|, i requires 0 <= i < |t.states| => t.states[i].buffer)
  }

  /**
   * Conservation: in every run the agent's bytes are, in order and exactly once, the settled
   * bytes followed by the carried chunk.
   */
  lemma RunConserves(t: Run, k: nat)
    requires ValidRun(t) && k <= |t.calls|
    ensures AgentRead(t.records, k) == Settled(t, k) + t.states[k].buffer
  {
    forall i | 0 <= i < |t.calls|
      ensures Carries(t)[i] + ReadBy(t.records)[i] == SettledPieces(t)[i] + Carries(t)[i + 1]
    {
      PiecesConserve(t, i);
    }
    JoinTelescopes(ReadBy(t.records), SettledPieces(t), Carries(t), k);
  }

  lemma {:induction false} PiecesConserve(t: Run, i: nat)
    requires ValidRun(t) && i < |t.calls|
    ensures Carries(t)[i] + ReadBy(t.records)[i] == SettledPieces(t)[i] + Carries(t)[i + 1]
  {
    CallConserves(t, i);
  }

  ghost function LostBy(t: Run): seq<nat>
    requires |t.calls| < |t.states|
  {
    seq(|t.calls|, i requires 0 <= i < |t.calls| => |LostBytes(t.states[i], t.calls[i])|)
  }

  /** Settled bytes are acknowledged or lost. */
  lemma SettledIsAckedOrLost(t: Run, k: nat)
    requires k <= |t.calls| < |t.states|
    ensures |Settled(t, k)| == |Acked(t, k)| + Sum(LostBy(t), k)
    ensures Sum(LostBy(t), k) == 0 <==> forall i :: 0 <= i < k ==> LostBytes(t.states[i], t.calls[i]) == []
    ensures Sum(LostBy(t), k) == 0 ==> Settled(t, k) == Acked(t, k)
  {
    var settled, acked, lost := SettledPieces(t), AckedPieces(t), LostBy(t);
    forall i | 0 <= i < |t.calls|
      ensures |settled[i]| == |acked[i]| + lost[i] && (lost[i] == 0 ==> settled[i] == acked[i])
      ensures lost[i] == 0 <==> LostBytes(t.states[i], t.calls[i]) == []
    {
    }
    JoinLength(settled, acked, lost, k);
    SumIsZeroIff(lost, k);
    if Sum(lost, k) == 0 {
      JoinSame(settled, acked, k);
    }
  }

  /** A call throws bytes away exactly in the two ways its schedule can say so. */
  lemma LosesIff(t: Run, k: nat)
    requires ValidRun(t) && k < |t.calls|
    ensures LostBytes(t.states[k], t.calls[k]) == [] <==>
              !LosesCarry(t.states[k], t.calls[k]) && !CancelledWrite(t.states[k], t.calls[k], true)
  {
    assert Connects(t, k);
  }

  /**
   * The acknowledged windows and the carried chunk tile the agent's stream, without gap,
   * repetition or reordering, if and only if no call failed or was cancelled while flushing a
   * carried chunk, or was cancelled while writing to its server.
   */
  lemma AcknowledgedWindowsTile(t: Run)
    requires ValidRun(t)
    ensures AgentRead(t.records, |t.calls|) == Acked(t, |t.calls|) + t.states[|t.calls|].buffer <==>
              forall k :: 0 <= k < |t.calls| ==>
                !LosesCarry(t.states[k], t.calls[k]) && !CancelledWrite(t.states[k], t.calls[k], true)
  {
    var n := |t.calls|;
    RunConserves(t, n);
    SettledIsAckedOrLost(t, n);
    forall k | 0 <= k < n
      ensures LostBytes(t.states[k], t.calls[k]) == [] <==>
                !LosesCarry(t.states[k], t.calls[k]) && !CancelledWrite(t.states[k], t.calls[k], true)
    {
      LosesIff(t, k);
    }
  }

  /** The first server breaks on byte `b`; the second while the relay hands it over. */
  const FlushBreaks: Call := Call(Broken(0), [])

  function BreaksOn(b: byte): Call {
    Call(Accepted, [AgentReady(Data([b]), Broken(0))])
  }

  ghost function LosingRun(b: byte): Run {
    Extend(Extend(NewRun, BreaksOn(b)), FlushBreaks)
  }

  lemma FirstServerBreaks(b: byte)
    ensures ValidCall([], BreaksOn(b)) && UpAcked(NewRelay, BreaksOn(b)) == []
    ensures var (s, r) := Through(NewRelay, BreaksOn(b)); s == NewRelay.(buffer := [b]) && r.io.agentRead == [b]
  {
    var e := BreaksOn(b).script[0];
    assert Play(Flushed([]), [e]) == Step(Flushed([]), e);
  }

  lemma LosingRunIsRun(b: byte)
    ensures var t := LosingRun(b);
            && ValidRun(t) && |t.calls| == 2 && t.calls[0] == BreaksOn(b) && t.calls[1] == FlushBreaks
            && t.states[1] == NewRelay.(buffer := [b])
  {
    FirstServerBreaks(b);
    ExtendIsRun(NewRun, BreaksOn(b));
    ExtendIsRun(Extend(NewRun, BreaksOn(b)), FlushBreaks);
  }

  /** A failed flush does happen: this run has read a byte that no server has and no buffer holds. */
  lemma FailedFlushLosesByte(b: byte)
    ensures var t := LosingRun(b);
            && ValidRun(t) && |t.calls| == 2 && LosesCarry(t.states[1], t.calls[1]) && t.states[2].alive
            && AgentRead(t.records, 2) == [b] && Acked(t, 2) == [] && t.states[2].buffer == []
  {
    var t := LosingRun(b);
    LosingRunIsRun(b);
    FirstServerBreaks(b);
    assert Connects(t, 0) && Connects(t, 1);
    var acked, read := AckedPieces(t), ReadBy(t.records);
    assert acked[0] == [];
    assert acked[1] == [];
    assert read[0] == [b];
    assert read[1] == [];
    JoinTwo(acked);
    JoinTwo(read);
  }

  /** One byte is read from one side, and the call is cancelled before the other side takes it. */
  function Cancels(b: byte, toServer: bool): Call {
    Call(Accepted, [if toServer then AgentReady(Data([b]), Cancelled(0)) else ServerReady(Data([b]), Cancelled(0))])
  }

  lemma CancelledCall(b: byte, toServer: bool)
    ensures var c := Cancels(b, toServer);
            && ValidCall([], c) && CancelledWrite(NewRelay, c, toServer)
            && UpAcked(NewRelay, c) == DownAcked(NewRelay, c) == []
            && Through(NewRelay, c).0 == NewRelay
            && Through(NewRelay, c).1.io.agentRead == (if toServer then [b] else [])
            && Through(NewRelay, c).1.io.serverRead == (if toServer then [] else [b])
  {
    var e := Cancels(b, toServer).script[0];
    assert Play(Flushed([]), [e]) == Step(Flushed([]), e);
  }

  /**
   * Cancelled writes do lose bytes, in either direction: after this run the relay is as good as
   * new, and the byte was neither acknowledged nor kept.
   */
  lemma CancelledWriteLosesByte(b: byte, toServer: bool)
    ensures var t := Extend(NewRun, Cancels(b, toServer));
            && ValidRun(t) && t.states[1] == NewRelay
            && Acked(t, 1) == AckedDown(t, 1) == []
            && (if toServer then AgentRead(t.records, 1) == [b] else ServerRead(t.records, 1) == [b])
  {
    CancelledCall(b, toServer);
    ExtendIsRun(NewRun, Cancels(b, toServer));
    var t := Extend(NewRun, Cancels(b, toServer));
    JoinOne(AckedPieces(t));
    JoinOne(AckedDownPieces(t));
    JoinOne(ReadBy(t.records));
    JoinOne(SentBy(t.records));
  }

  /** Where the window of server `k` starts in the agent's byte stream. */
  ghost function WindowStart(t: Run, k: nat): nat
    requires k <= |t.calls| < |t.states|
  {
    |Settled(t, k)|
  }

  ghost function WindowEnd(t: Run, k: nat): nat
    requires k < |t.calls| == |t.records| < |t.states|
  {
    WindowStart(t, k) + |t.records[k].io.serverGot|
  }

  /** `part` is what stands at offset `at` of `whole`. */
  ghost predicate StandsAt(part: seq<byte>, whole: seq<byte>, at: nat) {
    at + |part| <= |whole| && whole[at..at + |part|] == part
  }

  /** The server of call `k` gets a prefix of what the call has to offer. */
  lemma ServerGetsPrefix(t: Run, k: nat)
    requires ValidRun(t) && k < |t.calls|
    ensures t.records[k].io.serverGot <= t.records[k].carry + t.records[k].io.agentRead
  {
    var r := t.records[k];
    CallExplained(t, k);
    if r.outcome.Finished? || r.outcome.Dropped? {
      SessionServerPrefix(r.carry, r.io);
    }
  }

  lemma Associate(a: seq<byte>, b: seq<byte>, c: seq<byte>)
    ensures (a + b) + c == a + (b + c)
  {
  }

  /** What call `k` has to offer follows what was settled before it. */
  lemma OfferFollowsSettled(t: Run, k: nat)
    requires ValidRun(t) && k < |t.calls|
    ensures AgentRead(t.records, k + 1) == Settled(t, k) + (t.records[k].carry + t.records[k].io.agentRead)
  {
    RunConserves(t, k);
    CallConserves(t, k);
    Associate(Settled(t, k), t.records[k].carry, t.records[k].io.agentRead);
  }

  /** Every server receives one contiguous window of the agent's byte stream. */
  lemma ServerGetsWindow(t: Run, k: nat)
    requires ValidRun(t) && k < |t.calls|
    ensures StandsAt(t.records[k].io.serverGot, AgentRead(t.records, |t.calls|), WindowStart(t, k))
  {
    var r := t.records[k];
    ServerGetsPrefix(t, k);
    OfferFollowsSettled(t, k);
    JoinGrows(ReadBy(t.records), k + 1, |t.calls|);
    WithinPrefix(Settled(t, k), r.carry + r.io.agentRead, r.io.serverGot, AgentRead(t.records, |t.calls|));
  }

  lemma WithinPrefix(a: seq<byte>, b: seq<byte>, part: seq<byte>, whole: seq<byte>)
    requires a + b <= whole && part <= b
    ensures StandsAt(part, whole, |a|)
  {
    assert whole[..|a + b|] == a + b;
    assert forall i :: 0 <= i < |part| ==> whole[|a| + i] == (a + b)[|a| + i] == part[i];
  }

  /**
   * Consecutive windows. If call `k` loses nothing, window `k + 1` starts at the first byte server
   * `k` did not acknowledge, hence inside or right after window `k`, and the two overlap by fewer
   * than BUF_SIZE bytes. Otherwise it starts behind the lost bytes and leaves a gap of at most
   * BUF_SIZE bytes.
   */
  lemma {:induction false} NeighbouringWindows(t: Run, k: nat)
    requires ValidRun(t) && k < |t.calls|
    ensures var s, c := t.states[k], t.calls[k];
            && WindowStart(t, k + 1) == WindowStart(t, k) + |UpAcked(s, c)| + |LostBytes(s, c)|
            && if LostBytes(s, c) == [] then WindowStart(t, k + 1) <= WindowEnd(t, k) < WindowStart(t, k + 1) + BUF_SIZE
               else WindowEnd(t, k) < WindowStart(t, k + 1) <= WindowEnd(t, k) + BUF_SIZE
  {
    CallExplained(t, k);
  }

  /** What a call loses is at most BUF_SIZE bytes, right behind those its server acknowledged, and nothing else. */
  lemma {:induction false} LossStands(t: Run, k: nat)
    requires ValidRun(t) && k < |t.calls|
    ensures var s, c := t.states[k], t.calls[k];
            && |LostBytes(s, c)| <= BUF_SIZE && (LostBytes(s, c) != [] ==> t.states[k + 1].buffer == [])
            && StandsAt(LostBytes(s, c), AgentRead(t.records, |t.calls|), WindowStart(t, k) + |UpAcked(s, c)|)
  {
    var s, c := t.states[k], t.calls[k];
    LossFits(t, k);
    SettledGrows(t, k);
    WithinPrefix(Settled(t, k) + UpAcked(s, c), LostBytes(s, c), LostBytes(s, c), AgentRead(t.records, |t.calls|));
  }

  lemma LossFits(t: Run, k: nat)
    requires ValidRun(t) && k < |t.calls|
    ensures var lost := LostBytes(t.states[k], t.calls[k]);
            |lost| <= BUF_SIZE && (lost != [] ==> t.states[k + 1].buffer == [])
  {
    CallExplained(t, k);
  }

  /** What is settled by call `k` stands at the start of the agent's stream. */
  lemma SettledGrows(t: Run, k: nat)
    requires ValidRun(t) && k < |t.calls|
    ensures (Settled(t, k) + UpAcked(t.states[k], t.calls[k])) + LostBytes(t.states[k], t.calls[k])
         <= AgentRead(t.records, |t.calls|)
  {
    RunConserves(t, k + 1);
    JoinGrows(ReadBy(t.records), k + 1, |t.calls|);
    Associate(Settled(t, k), UpAcked(t.states[k], t.calls[k]), LostBytes(t.states[k], t.calls[k]));
    PrefixOfPrefix(Settled(t, k + 1), t.states[k + 1].buffer, AgentRead(t.records, |t.calls|));
  }

  lemma PrefixOfPrefix(a: seq<byte>, b: seq<byte>, whole: seq<byte>)
    requires a + b <= whole
    ensures a <= whole
  {
    assert whole[..|a|] == (a + b)[..|a|] == a;
  }

  /** A failed flush loses the carried chunk and nothing else. */
  lemma FailedFlushLosesCarry(t: Run, k: nat)
    requires ValidRun(t) && k < |t.calls| && t.records[k].outcome.FlushFailed?
    ensures 0 < |t.records[k].carry| <= BUF_SIZE && t.states[k + 1] == t.states[k].(buffer := [])
    ensures StandsAt(t.records[k].carry, AgentRead(t.records, |t.calls|), WindowStart(t, k))
    ensures WindowStart(t, k + 1) == WindowStart(t, k) + |t.records[k].carry|
    ensures Acked(t, k + 1) == Acked(t, k)
  {
    CallExplained(t, k);
    LossStands(t, k);
    assert UpAcked(t.states[k], t.calls[k]) == [];
  }

  /** Once dead, the relay rejects every later call and its state never changes again. */
  lemma {:induction false} DeadStaysDead(t: Run, j: nat, k: nat)
    requires ValidRun(t) && j <= k <= |t.calls| && !t.states[j].alive
    ensures t.states[k] == t.states[j]
    ensures k < |t.calls| ==> t.records[k].outcome == Rejected
    decreases k
  {
    if j < k {
      DeadStaysDead(t, j, k - 1);
      RejectedIffDead(t, k - 1);
    }
    if k < |t.calls| {
      RejectedIffDead(t, k);
    }
  }

  /**
   * Exact upstream accounting after any run: `total_stats` is the sum of the stats the finished
   * calls returned, and together with what servers took during abandoned calls it is the number of
   * bytes servers acknowledged.
   */
  lemma UpstreamTotals(t: Run, k: nat)
    requires ValidRun(t) && k <= |t.calls|
    ensures t.states[k].totalUp == SumUp(t.records, k)
    ensures t.states[k].totalUp + UncountedUp(t, k) == |Acked(t, k)|
  {
    var total := seq(|t.states|, i requires 0 <= i < |t.states| => t.states[i].totalUp);
    var returned := ReturnedUp(t.records);
    forall i | 0 <= i < |t.calls|
      ensures total[i + 1] == total[i] + returned[i]
      ensures total[i + 1] + UncountedUpBy(t)[i] == total[i] + |AckedPieces(t)[i]|
    {
      CallCounts(t, i);
    }
    TotalSums(total, returned, k);
    TotalCounts(total, AckedPieces(t), UncountedUpBy(t), k);
  }

  /** Exact downstream accounting after any run, whether or not the agent is still there. */
  lemma DownstreamTotals(t: Run, k: nat)
    requires ValidRun(t) && k <= |t.calls|
    ensures t.states[k].totalDown == SumDown(t.records, k)
    ensures t.states[k].totalDown + UncountedDown(t, k) == |AckedDown(t, k)|
  {
    var total := seq(|t.states|, i requires 0 <= i < |t.states| => t.states[i].totalDown);
    var returned := ReturnedDown(t.records);
    forall i | 0 <= i < |t.calls|
      ensures total[i + 1] == total[i] + returned[i]
      ensures total[i + 1] + UncountedDownBy(t)[i] == total[i] + |AckedDownPieces(t)[i]|
    {
      CallCounts(t, i);
    }
    TotalSums(total, returned, k);
    TotalCounts(total, AckedDownPieces(t), UncountedDownBy(t), k);
  }

  /** What a call adds to the totals is what was acknowledged during it, unless it is abandoned. */
  lemma CallCounts(t: Run, k: nat)
    requires ValidRun(t) && k < |t.calls|
    ensures var s, c, r, s' := t.states[k], t.calls[k], t.records[k], t.states[k + 1];
            && s'.totalUp == s.totalUp + (if r.outcome.Finished? then r.io.up else 0)
            && s'.totalUp + (if Abandoned(s, c) then |UpAcked(s, c)| else 0) == s.totalUp + |UpAcked(s, c)|
            && s'.totalDown == s.totalDown + (if r.outcome.Finished? then r.io.down else 0)
            && s'.totalDown + (if Abandoned(s, c) then |DownAcked(s, c)| else 0) == s.totalDown + |DownAcked(s, c)|
  {
    CallExplained(t, k);
  }

  /** One call's downstream bytes: none towards a dead agent; all of them if the agent stays and no write is cancelled. */
  lemma {:induction false} CallDownstream(t: Run, k: nat)
    requires ValidRun(t) && k < |t.calls|
    ensures var s, c, r, s' := t.states[k], t.calls[k], t.records[k], t.states[k + 1];
            && DownAcked(s, c) <= r.io.agentGot <= r.io.serverRead
            && |r.io.agentGot| < |DownAcked(s, c)| + BUF_SIZE
            && (!s.alive ==> r.io.serverRead == [] && !s'.alive)
            && (s'.alive ==> (DownAcked(s, c) == r.io.serverRead <==> !CancelledWrite(s, c, false)))
  {
    CallExplained(t, k);
  }

  /**
   * Unless a call was cancelled while writing to the agent, the agent has received a prefix of what
   * the servers sent and acknowledged all of that but less than one chunk; while it is there
   * nothing is outstanding at all.
   */
  lemma AgentGetsServerBytes(t: Run, k: nat)
    requires ValidRun(t) && k <= |t.calls|
    ensures (forall i :: 0 <= i < |t.calls| ==> !CancelledWrite(t.states[i], t.calls[i], false)) ==>
              && AckedDown(t, k) <= AgentGot(t.records, k) <= ServerRead(t.records, k)
              && |AgentGot(t.records, k)| < |AckedDown(t, k)| + BUF_SIZE
              && (t.states[k].alive ==> AckedDown(t, k) == ServerRead(t.records, k))
  {
    if forall i :: 0 <= i < |t.calls| ==> !CancelledWrite(t.states[i], t.calls[i], false) {
      var got, sent := GotBy(t.records), SentBy(t.records);
      var open := seq(|t.states|, i requires 0 <= i < |t.states| => t.states[i].alive);
      forall i | 0 <= i < |t.calls|
        ensures AckedDownPieces(t)[i] <= got[i] <= sent[i] && |got[i]| < |AckedDownPieces(t)[i]| + BUF_SIZE
        ensures open[i + 1] ==> open[i] && AckedDownPieces(t)[i] == sent[i]
        ensures !open[i] ==> sent[i] == []
      {
        CallDownstream(t, i);
      }
      JoinLags(AckedDownPieces(t), got, sent, open, BUF_SIZE, k);
    }
  }

  ghost function MissedBy(t: Run): seq<nat>
    requires |t.calls| == |t.records| < |t.states|
  {
    seq(|t.calls|, i requires 0 <= i < |t.calls| =>
      if DownAcked(t.states[i], t.calls[i]) <= t.records[i].io.serverRead
      then |t.records[i].io.serverRead| - |DownAcked(t.states[i], t.calls[i])| else 0)
  }

  /**
   * While the agent is there it has acknowledged everything the servers sent if and only if no
   * call was cancelled while writing to it.
   */
  lemma AgentAckedAllIff(t: Run, k: nat)
    requires ValidRun(t) && k <= |t.calls| && t.states[k].alive
    ensures AckedDown(t, k) == ServerRead(t.records, k) <==>
              forall i :: 0 <= i < k ==> !CancelledWrite(t.states[i], t.calls[i], false)
  {
    var acked, sent, missed := AckedDownPieces(t), SentBy(t.records), MissedBy(t);
    forall i | 0 <= i < |t.calls|
      ensures |sent[i]| == |acked[i]| + missed[i] && (missed[i] == 0 <==> acked[i] == sent[i])
      ensures i < k ==> (missed[i] == 0 <==> !CancelledWrite(t.states[i], t.calls[i], false))
    {
      CallDownstream(t, i);
      if i < k {
        AliveBefore(t, i + 1, k);
      }
    }
    JoinLength(sent, acked, missed, k);
    SumIsZeroIff(missed, k);
    if Sum(missed, k) == 0 {
      JoinSame(acked, sent, k);
    }
  }

  lemma AliveBefore(t: Run, j: nat, k: nat)
    requires ValidRun(t) && j <= k <= |t.calls| && t.states[k].alive
    ensures t.states[j].alive
  {
    if !t.states[j].alive {
      DeadStaysDead(t, j, k);
    }
  }

  /**
   * If no call was abandoned, failed flushes and dead agents included, the totals count exactly the
   * acknowledged bytes in both directions.
   */
  lemma TotalsCountAcknowledgedBytes(t: Run)
    requires ValidRun(t) && forall i :: 0 <= i < |t.calls| ==> !Abandoned(t.states[i], t.calls[i])
    ensures t.states[|t.calls|].totalUp == |Acked(t, |t.calls|)|
    ensures t.states[|t.calls|].totalDown == |AckedDown(t, |t.calls|)|
  {
    UpstreamTotals(t, |t.calls|);
    DownstreamTotals(t, |t.calls|);
    SumIsZeroIff(UncountedUpBy(t), |t.calls|);
    SumIsZeroIff(UncountedDownBy(t), |t.calls|);
  }
}
