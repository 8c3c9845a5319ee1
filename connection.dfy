/**
 * The connection bookkeeping of `SocketManager`, as values: the flags, the idle
 * time, the sequence number, the pending heartbeat timeouts and the log of what
 * the manager asked its collaborators to do. Each operation of the manager is a
 * function from the old state to the new one; the classes in `Manager` are
 * proved to follow these functions, and the lemmas here say what follows for
 * single steps and for whole runs of operations.
 */
module Connection {
  import opened Bytes

  /** Which failure handler called `executeConnect`. */
  datatype Origin = ReceiveFailed | SendFailed | HeartbeatStopped

  /** What the manager asks of its collaborators: the connect and send tasks it hands to the
      thread pool, the reconnects its failure handlers request (recorded here rather than run),
      the connect success it posts, the messages it delivers and the heartbeats it writes. */
  datatype Event =
    | ConnectTaskStarted               // `connect` queues a connectTask
    | ReconnectRequested(from: Origin) // a failure handler calls `executeConnect`
    | ConnectSucceeded                 // `executeConnect` posts CONNECT_SUCCEED
    | SendDispatched(msg: string)      // `sendMsg` queues a SendTask
    | DataDelivered(msg: string)       // `handleIMMsg` calls `onReceiveData`
    | HeartbeatSent                    // the heartbeat task wrote a heartbeat frame

  /** The heartbeat task's sleep between iterations, in milliseconds. */
  const Interval: int := 5000

  /** The manager's state. `pendingTimeouts` counts the HEART_PACKAGE_TIMEOUT messages
      posted to the handler and not yet removed. */
  datatype Conn = Conn(
    isConnected: bool,
    isCloseSocket: bool,
    freeTime: int,
    seqID: int32,
    pendingTimeouts: nat,
    events: seq<Event>)

  /** The state of a freshly constructed manager. */
  const Initial: Conn := Conn(false, false, 0, 0, 0, [])

  /** `autoSeqID`: the next sequence number, wrapping to 0 instead of overflowing. */
  function NextSeq(s: int32): (r: int32)
    ensures 0 <= s ==> 0 <= r
  {
    if s < IntMax then s + 1 else 0
  }

  /** The sequence number after `k` advances from 0. */
  function SeqAfter(k: nat): int32
  {
    if k == 0 then 0 else NextSeq(SeqAfter(k - 1))
  }

  /** Counting from 0, the sequence number is the number of advances modulo 2^31:
      it climbs to Integer.MAX_VALUE and starts again at 0. */
  lemma {:induction false} SeqAfterWraps(k: nat)
    ensures SeqAfter(k) as int == k % 0x8000_0000
  {
    if k > 0 {
      SeqAfterWraps(k - 1);
      if (k - 1) % 0x8000_0000 == 0x7fff_ffff {
        assert k % 0x8000_0000 == 0;
      } else {
        assert k % 0x8000_0000 == (k - 1) % 0x8000_0000 + 1;
      }
    }
  }

  /** `closeSocket`, including the `stop` of the heartbeat task it triggers: that `stop` sees
      the closed flag already set and requests no reconnect. Heartbeat timeouts already posted
      to the handler are not removed, so `pendingTimeouts` is kept. */
  function Closed(c: Conn): Conn
  {
    c.(isConnected := false, isCloseSocket := true)
  }

  /** `connect`: close, clear the closed flag, queue a connect task. */
  function Reopened(c: Conn): Conn
  {
    Closed(c).(isCloseSocket := false, events := c.events + [ConnectTaskStarted])
  }

  /** `onReceiveFail`, `onSendFail` and `HeartPackageTask.stop` on the manager: drop the
      connection and reconnect unless the socket was closed on purpose. */
  function Failed(c: Conn, from: Origin): Conn
  {
    c.(isConnected := false,
       events := if c.isCloseSocket then c.events else c.events + [ReconnectRequested(from)])
  }

  /** `handleIMMsg`: the link is alive, so the idle time restarts and pending timeouts are removed. */
  function Received(c: Conn, msg: string): Conn
  {
    c.(freeTime := 0, pendingTimeouts := 0, events := c.events + [DataDelivered(msg)])
  }

  /** `sendMsg`: queue the send, advance the sequence number whatever the send's outcome. */
  function Sent(c: Conn, msg: string): Conn
  {
    c.(seqID := NextSeq(c.seqID), events := c.events + [SendDispatched(msg)])
  }

  /** One iteration of the `executeConnect` loop, `ok` being whether the socket connected. */
  function Attempt(c: Conn, ok: bool): Conn
  {
    if ok then c.(isConnected := true, events := c.events + [ConnectSucceeded])
    else c.(isConnected := false)
  }

  /** `executeConnect` with the outcomes of successive connect attempts: it tries while neither
      connected nor closed, and stops trying when the outcomes run out. */
  function Attempts(c: Conn, outcomes: seq<bool>): Conn
    decreases |outcomes|
  {
    if c.isConnected || c.isCloseSocket || outcomes == [] then c
    else Attempts(Attempt(c, outcomes[0]), outcomes[1..])
  }

  /** Whether a heartbeat iteration ends the heartbeat task: the link was idle long enough and the send failed. */
  predicate TickStops(c: Conn, maxFreeTime: int, sendOk: bool)
  {
    c.freeTime >= maxFreeTime && !sendOk
  }

  /** One iteration of `HeartPackageTask.run`, `sendOk` being whether the heartbeat write succeeds.
      After a send the idle time is reset and then the sleep is added, so it ends at `Interval`;
      after a failed send the heartbeat task stops before sleeping. */
  function Tick(c: Conn, maxFreeTime: int, sendOk: bool): Conn
  {
    if c.freeTime >= maxFreeTime then
      if sendOk then
        c.(freeTime := 0 + Interval, seqID := NextSeq(c.seqID),
           pendingTimeouts := c.pendingTimeouts + 1, events := c.events + [HeartbeatSent])
      else Failed(c, HeartbeatStopped)
    else c.(freeTime := c.freeTime + Interval)
  }

  /** `HeartPackageTask.run` over the send outcomes of successive iterations, from a task whose
      stop flag is `isStop`: the new state and the new stop flag. */
  function Beats(c: Conn, isStop: bool, maxFreeTime: int, outcomes: seq<bool>): (Conn, bool)
    decreases |outcomes|
  {
    if isStop || outcomes == [] then (c, isStop)
    else if TickStops(c, maxFreeTime, outcomes[0]) then (Tick(c, maxFreeTime, outcomes[0]), true)
    else Beats(Tick(c, maxFreeTime, outcomes[0]), false, maxFreeTime, outcomes[1..])
  }

  /** `executeConnect` ends connected exactly when it was already connected or some attempt
      succeeded while the socket was open; it never touches the closed flag, connects at most
      once, and leaves the loop only connected, closed, or out of attempts. */
  lemma {:induction false} AttemptsOutcome(c: Conn, outcomes: seq<bool>)
    ensures var r := Attempts(c, outcomes);
      && (r.isConnected <==> c.isConnected || (!c.isCloseSocket && true in outcomes))
      && r.isCloseSocket == c.isCloseSocket
      && r == c.(isConnected := r.isConnected, events := r.events)
      && r.events == c.events + (if !c.isConnected && !c.isCloseSocket && true in outcomes
                                 then [ConnectSucceeded] else [])
      && (r.isConnected || r.isCloseSocket || true !in outcomes)
    decreases |outcomes|
  {
    if !(c.isConnected || c.isCloseSocket || outcomes == []) {
      var c1 := Attempt(c, outcomes[0]);
      AttemptsOutcome(c1, outcomes[1..]);
      assert outcomes == [outcomes[0]] + outcomes[1..];
      if !outcomes[0] {
        assert true in outcomes <==> true in outcomes[1..];
      }
    }
  }

  /** The threshold (at least 0) plus one heartbeat interval. */
  function IdleBound(maxFreeTime: int): int
  {
    Max(maxFreeTime, 0) + Interval
  }

  /** The idle time never exceeds the threshold by more than one interval while the heartbeat
      task runs: a link idle that long gets a heartbeat, which resets it. */
  lemma {:induction false} IdleBounded(c: Conn, isStop: bool, maxFreeTime: int, outcomes: seq<bool>)
    requires 0 <= c.freeTime <= IdleBound(maxFreeTime)
    ensures 0 <= Beats(c, isStop, maxFreeTime, outcomes).0.freeTime <= IdleBound(maxFreeTime)
    decreases |outcomes|
  {
    if !(isStop || outcomes == []) && !TickStops(c, maxFreeTime, outcomes[0]) {
      IdleBounded(Tick(c, maxFreeTime, outcomes[0]), false, maxFreeTime, outcomes[1..]);
    }
  }

  /** While the link has been idle for less than the threshold, an iteration only sleeps:
      `k` such iterations add `k` intervals to the idle time and send nothing, whatever the
      send outcomes would have been. */
  lemma {:induction false} QuietTicks(c: Conn, maxFreeTime: int, outcomes: seq<bool>, k: nat)
    requires k <= |outcomes|
    requires c.freeTime + (k - 1) * Interval < maxFreeTime
    ensures Beats(c, false, maxFreeTime, outcomes)
         == Beats(c.(freeTime := c.freeTime + k * Interval), false, maxFreeTime, outcomes[k..])
    decreases k
  {
    if k == 0 {
      assert outcomes[0..] == outcomes;
      assert c.(freeTime := c.freeTime) == c;
    } else {
      var c1 := Tick(c, maxFreeTime, outcomes[0]);
      assert c1 == c.(freeTime := c.freeTime + Interval);
      QuietTicks(c1, maxFreeTime, outcomes[1..], k - 1);
      assert outcomes[1..][k - 1..] == outcomes[k..];
      assert c1.(freeTime := c1.freeTime + (k - 1) * Interval) == c.(freeTime := c.freeTime + k * Interval);
    }
  }

  /** From a fresh idle time, the first heartbeat goes out in the iteration that finds the idle
      time at the first multiple of the interval reaching the threshold (`k` quiet iterations
      first); right after it the idle time restarts, at one interval, the sequence number has
      advanced once and one reply timeout is pending. */
  lemma FirstHeartbeat(c: Conn, maxFreeTime: int, outcomes: seq<bool>, k: nat)
    requires c.freeTime == 0
    requires (k - 1) * Interval < maxFreeTime <= k * Interval
    requires |outcomes| == k + 1 && outcomes[k]
    ensures Beats(c, false, maxFreeTime, outcomes)
         == (c.(freeTime := Interval, seqID := NextSeq(c.seqID),
                pendingTimeouts := c.pendingTimeouts + 1, events := c.events + [HeartbeatSent]), false)
  {
    QuietTicks(c, maxFreeTime, outcomes, k);
    var ck := c.(freeTime := k * Interval);
    assert outcomes[k..] == [outcomes[k]];
    assert Beats(ck, false, maxFreeTime, outcomes[k..])
        == Beats(Tick(ck, maxFreeTime, true), false, maxFreeTime, []);
  }

  /** The operations a manager goes through, one after another. */
  datatype Op =
    | Connect
    | Close
    | ReceiveFail
    | SendFail
    | Receive(msg: string)
    | Send(msg: string)
    | ConnectLoop(outcomes: seq<bool>)
    | Heartbeat(sendOk: bool)
    | HeartbeatStop                    // `HeartPackageTask.stop`, as `closeHeartPackageTask` calls it

  function Apply(c: Conn, maxFreeTime: int, op: Op): Conn
  {
    match op
    case Connect => Reopened(c)
    case Close => Closed(c)
    case ReceiveFail => Failed(c, ReceiveFailed)
    case SendFail => Failed(c, SendFailed)
    case Receive(msg) => Received(c, msg)
    case Send(msg) => Sent(c, msg)
    case ConnectLoop(outcomes) => Attempts(c, outcomes)
    case Heartbeat(ok) => Tick(c, maxFreeTime, ok)
    case HeartbeatStop => Failed(c, HeartbeatStopped)
  }

  function RunOps(c: Conn, maxFreeTime: int, ops: seq<Op>): Conn
    decreases |ops|
  {
    if ops == [] then c else RunOps(Apply(c, maxFreeTime, ops[0]), maxFreeTime, ops[1..])
  }

  /** What every reachable state satisfies: the sequence number in [0, Integer.MAX_VALUE] and
      the idle time a non-negative multiple of the heartbeat interval. */
  predicate Inv(c: Conn)
  {
    0 <= c.seqID && 0 <= c.freeTime && c.freeTime % Interval == 0
  }

  lemma {:induction false} InvariantKept(c: Conn, maxFreeTime: int, ops: seq<Op>)
    requires Inv(c)
    ensures Inv(RunOps(c, maxFreeTime, ops))
    decreases |ops|
  {
    if ops != [] {
      if ops[0].ConnectLoop? {
        AttemptsOutcome(c, ops[0].outcomes);
      }
      InvariantKept(Apply(c, maxFreeTime, ops[0]), maxFreeTime, ops[1..]);
    }
  }

  /** No event that starts or requests a connection. */
  predicate NoReconnect(events: seq<Event>)
  {
    forall i :: 0 <= i < |events| ==>
      !events[i].ReconnectRequested? && !events[i].ConnectSucceeded? && !events[i].ConnectTaskStarted?
  }

  /** Once the socket is closed, nothing but a new `connect` brings the manager back: every
      other sequence of operations, failures and heartbeats included, leaves it closed and
      disconnected and adds no reconnect request and no connection. A closed manager is not
      closed for good, though: a heartbeat timeout posted before the close stays pending, and
      when it fires its handler calls `connect`. */
  lemma {:induction false} ClosedStaysClosed(c: Conn, maxFreeTime: int, ops: seq<Op>)
    requires c.isCloseSocket && !c.isConnected
    requires forall i :: 0 <= i < |ops| ==> !ops[i].Connect?
    ensures var r := RunOps(c, maxFreeTime, ops);
      && r.isCloseSocket && !r.isConnected
      && |c.events| <= |r.events| && r.events[..|c.events|] == c.events
      && NoReconnect(r.events[|c.events|..])
    decreases |ops|
  {
    if ops != [] {
      var c1 := Apply(c, maxFreeTime, ops[0]);
      if ops[0].ConnectLoop? {
        AttemptsOutcome(c, ops[0].outcomes);
      }
      assert c1.isCloseSocket && !c1.isConnected;
      assert |c.events| <= |c1.events| && c1.events[..|c.events|] == c.events;
      assert NoReconnect(c1.events[|c.events|..]);
      ClosedStaysClosed(c1, maxFreeTime, ops[1..]);
      var r := RunOps(c1, maxFreeTime, ops[1..]);
      assert r.events[|c.events|..] == c1.events[|c.events|..] + r.events[|c1.events|..];
    }
  }
}
