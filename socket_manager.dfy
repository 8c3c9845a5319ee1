/**
 * `SocketManager` and its heartbeat task as objects whose fields change in place.
 * Sockets, streams, threads and the Android handler are not modelled: a socket
 * connect attempt and a heartbeat write are outcomes passed in by the caller,
 * calls to `executeConnect` from failure handlers and the connect and send tasks
 * handed to the thread pool are recorded in `events`, and the HEART_PACKAGE_TIMEOUT messages posted
 * to the handler are counted in `pendingTimeouts`. Every method is proved to
 * change the state exactly as the matching function of `Connection` says.
 */
module Manager {
  import opened Bytes
  import opened Connection

  class SocketManager {
    /** `yimConfig.maxFreeTime`: the idle time after which a heartbeat is sent. */
    const maxFreeTime: int

    var isConnected: bool
    var isCloseSocket: bool
    var freeTime: int
    var seqID: int32
    var pendingTimeouts: nat
    var events: seq<Event>
    var heartPackageTask: HeartPackageTask?

    /** The bookkeeping state as a value. */
    function State(): Conn
      reads this
    {
      Conn(isConnected, isCloseSocket, freeTime, seqID, pendingTimeouts, events)
    }

    /** The constructor followed by `init(yimConfig)`. */
    constructor (maxFreeTime: int)
      ensures State() == Initial && Inv(State())
      ensures heartPackageTask == null && this.maxFreeTime == maxFreeTime
    {
      this.maxFreeTime := maxFreeTime;
      isConnected, isCloseSocket := false, false;
      freeTime, seqID := 0, 0;
      pendingTimeouts, events := 0, [];
      heartPackageTask := null;
    }

    /** `autoSeqID`. */
    method AutoSeqID()
      modifies this
      ensures State() == old(State()).(seqID := NextSeq(old(seqID)))
      ensures heartPackageTask == old(heartPackageTask)
    {
      if seqID < IntMax {
        seqID := seqID + 1;
      } else {
        seqID := 0;
      }
    }

    /** `connect`: tears the old session down, clears the closed flag and queues a connect task. */
    method Connect()
      modifies this, heartPackageTask
      ensures State() == Reopened(old(State()))
      ensures !isConnected && !isCloseSocket
      ensures heartPackageTask == old(heartPackageTask)
      ensures heartPackageTask != null ==> heartPackageTask.isStop
    {
      CloseSocket("SocketManager[newConnectTask]");
      isCloseSocket := false;
      events := events + [ConnectTaskStarted];
    }

    /** `executeConnect`, `outcomes[i]` being whether the i-th socket connect succeeds. It loops
        while neither connected nor closed; the model stops when the outcomes run out. */
    method ExecuteConnect(outcomes: seq<bool>)
      modifies this
      ensures State() == Attempts(old(State()), outcomes)
      ensures heartPackageTask == old(heartPackageTask)
    {
      var i := 0;
      while !isConnected && !isCloseSocket && i < |outcomes|
        invariant 0 <= i <= |outcomes|
        invariant Attempts(State(), outcomes[i..]) == Attempts(old(State()), outcomes)
        invariant heartPackageTask == old(heartPackageTask)
      {
        assert outcomes[i..][1..] == outcomes[i + 1..];
        if outcomes[i] {
          isConnected := true;
          events := events + [ConnectSucceeded];
        } else {
          isConnected := false;
        }
        i := i + 1;
      }
    }

    /** `onReceiveFail`. */
    method OnReceiveFail()
      modifies this
      ensures State() == Failed(old(State()), ReceiveFailed)
      ensures !isConnected && isCloseSocket == old(isCloseSocket)
      ensures heartPackageTask == old(heartPackageTask)
    {
      isConnected := false;
      if !isCloseSocket {
        events := events + [ReconnectRequested(ReceiveFailed)];
      }
    }

    /** `sendMsg`: queues the send and advances the sequence number, whatever the send's outcome. */
    method SendMsg(msg: string)
      modifies this
      ensures State() == Sent(old(State()), msg)
      ensures heartPackageTask == old(heartPackageTask)
    {
      events := events + [SendDispatched(msg)];
      AutoSeqID();
    }

    /** `onSendFail`. */
    method OnSendFail()
      modifies this
      ensures State() == Failed(old(State()), SendFailed)
      ensures !isConnected && isCloseSocket == old(isCloseSocket)
      ensures heartPackageTask == old(heartPackageTask)
    {
      isConnected := false;
      if !isCloseSocket {
        events := events + [ReconnectRequested(SendFailed)];
      }
    }

    /** `handleIMMsg`: resets the idle time, removes pending heartbeat timeouts, delivers the message. */
    method HandleIMMsg(msg: string)
      modifies this
      ensures State() == Received(old(State()), msg)
      ensures freeTime == 0 && pendingTimeouts == 0
      ensures heartPackageTask == old(heartPackageTask)
    {
      freeTime := 0;
      pendingTimeouts := 0;
      events := events + [DataDelivered(msg)];
    }

    /** `startHeartPackageTask`: a new, running heartbeat task. */
    method StartHeartPackageTask()
      modifies this
      ensures State() == old(State())
      ensures heartPackageTask != null && fresh(heartPackageTask) && !heartPackageTask.isStop
    {
      heartPackageTask := new HeartPackageTask();
    }

    /** `closeHeartPackageTask`: stops the current heartbeat task, if there is one. */
    method CloseHeartPackageTask()
      modifies this, heartPackageTask
      ensures heartPackageTask == old(heartPackageTask)
      ensures heartPackageTask == null ==> State() == old(State())
      ensures heartPackageTask != null ==>
        heartPackageTask.isStop && State() == Failed(old(State()), HeartbeatStopped)
    {
      if heartPackageTask != null {
        heartPackageTask.Stop(this);
      }
    }

    /** `closeSocket`: whatever the stream and socket closes do, the manager ends disconnected and
        closed, and the heartbeat task is stopped without requesting a reconnect. */
    method CloseSocket(from: string)
      modifies this, heartPackageTask
      ensures State() == Closed(old(State()))
      ensures !isConnected && isCloseSocket
      ensures heartPackageTask == old(heartPackageTask)
      ensures heartPackageTask != null ==> heartPackageTask.isStop
    {
      isConnected := false;
      isCloseSocket := true;
      CloseHeartPackageTask();
    }
  }

  /** The heartbeat task. Being an inner class in the client, it reaches its manager's fields;
      here the manager is passed in. */
  class HeartPackageTask {
    var isStop: bool

    constructor ()
      ensures !isStop
    {
      isStop := false;
    }

    /** `stop`: ends the heartbeat task and drops the connection, reconnecting unless the socket was closed. */
    method Stop(m: SocketManager)
      modifies this, m
      ensures isStop
      ensures m.State() == Failed(old(m.State()), HeartbeatStopped)
      ensures m.heartPackageTask == old(m.heartPackageTask)
    {
      isStop := true;
      m.isConnected := false;
      if !m.isCloseSocket {
        m.events := m.events + [ReconnectRequested(HeartbeatStopped)];
      }
    }

    /** One iteration of `run`'s loop, `sendOk` being whether the heartbeat write succeeds.
        Returns whether `run` returns right after it. */
    method RunOnce(m: SocketManager, sendOk: bool) returns (stopped: bool)
      requires !isStop
      modifies this, m
      ensures stopped == TickStops(old(m.State()), m.maxFreeTime, sendOk) && isStop == stopped
      ensures m.State() == Tick(old(m.State()), m.maxFreeTime, sendOk)
      ensures m.heartPackageTask == old(m.heartPackageTask)
    {
      if m.freeTime >= m.maxFreeTime {
        if sendOk {
          m.events := m.events + [HeartbeatSent];
          m.freeTime := 0;
          m.AutoSeqID();
          m.pendingTimeouts := m.pendingTimeouts + 1;
        } else {
          Stop(m);
          return true;
        }
      }
      m.freeTime := m.freeTime + Interval;
      return false;
    }

    /** `run`, `outcomes[i]` being whether the i-th iteration's heartbeat write would succeed.
        It loops while not stopped; the model stops when the outcomes run out. */
    method Run(m: SocketManager, outcomes: seq<bool>)
      modifies this, m
      ensures (m.State(), isStop) == Beats(old(m.State()), old(isStop), m.maxFreeTime, outcomes)
      ensures m.heartPackageTask == old(m.heartPackageTask)
    {
      var i := 0;
      while !isStop && i < |outcomes|
        invariant 0 <= i <= |outcomes|
        invariant Beats(m.State(), isStop, m.maxFreeTime, outcomes[i..])
               == Beats(old(m.State()), old(isStop), m.maxFreeTime, outcomes)
        invariant m.heartPackageTask == old(m.heartPackageTask)
      {
        assert outcomes[i..][1..] == outcomes[i + 1..];
        var stopped := RunOnce(m, outcomes[i]);
        if stopped {
          return;
        }
        i := i + 1;
      }
    }
  }
}
