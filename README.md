# YIM socket client: frame codec and connection bookkeeping in Dafny

This project models the core of the YIM Android instant-messaging client:

- its **wire-frame codec** (`SocketDataUtils`). A frame is the 4-byte big-endian length of the
  gzip-compressed UTF-8 payload, followed by those compressed bytes. `output` builds and writes
  one frame. `getDataBody` reads the header and then the announced number of body bytes.
  `getData` reassembles an exact number of bytes from a stream whose reads may return any short
  piece.
- its **connection bookkeeping** (`SocketManager`). This covers the `isConnected` and
  `isCloseSocket` flags, the idle time `freeTime`, the wrapping sequence number `seqID`, the
  pending heartbeat timeouts and the heartbeat task's `isStop` flag. It also covers how
  `connect`, `closeSocket`, the failure handlers, `handleIMMsg`, `sendMsg`, `executeConnect`
  and the heartbeat loop change them.

Files:

- `wrappers.dfy`: `Option` and `Result`.
- `bytes.dfy` (module `Bytes`): bytes, Java `int`, and the 4-byte big-endian conversion used
  for the length prefix, with both round trips proved.
- `codec.dfy` (module `SocketData`): input and output streams as objects, and the codec methods
  proved against the functions `Frame` and `ParseFrame`.
- `connection.dfy` (module `Connection`): the manager's state as a value `Conn`, one function per
  operation, and lemmas about single steps and about whole runs of operations.
- `socket_manager.dfy` (module `Manager`): the classes `SocketManager` and `HeartPackageTask`.
  Their fields change in place, and every method is proved to follow the matching `Connection`
  function.

Collaborators whose code is not part of this model are handled as follows:

- Compression, decompression and UTF-8 encoding are a `Gzip` value of three functions. The
  frame round trip is proved for every `Gzip` that satisfies `RoundTrips`, meaning that
  decompressing what was compressed gives back the text.
- `ByteUtil` is not part of this model. Its `toByteArray(n, 4)` and `toInt` are defined as the
  big-endian 4-byte encoding the protocol prescribes. `toInt` yields a Java `int`, so a header
  whose top bit is set reads as a negative length.
- A stream's reads are decided by a chunking function `split`. The k-th read hands out
  `min(split(k), requested, pending)` bytes, and at least 1. A read at end of stream returns
  -1. Every way of cutting the bytes into pieces is some `split`.
- A socket connect attempt and a heartbeat write are boolean outcomes supplied by the caller.
- `executeConnect` calls made by the failure handlers are recorded as `ReconnectRequested`
  events and are not run. The connect task and the send tasks handed to the thread pool are
  recorded as `ConnectTaskStarted` and `SendDispatched`.

Behaviour of the code that the model keeps:

- `getDataBody` raises no truncation error. When the stream ends inside a body, `getData`
  returns the shorter array and `getDataBody` hands it to the decompressor.
- Right after a heartbeat, `freeTime` reads 5000, because the same loop iteration sets it to 0
  and then adds the 5000 ms sleep.
- The decoded length is a signed Java `int`, so a header whose first byte has its top bit set
  gives a negative length and an empty body.
- `connect` queues a new connect task on every call, and `synchronized` on `executeConnect`
  runs them one at a time.
- `closeSocket` does not remove HEART_PACKAGE_TIMEOUT messages already posted to the handler,
  so `Closed` keeps `pendingTimeouts`. Such a timeout still fires after an explicit close, and
  its handler calls `connect`, which reopens the socket.

## Model

| member | source | states |
|---|---|---|
| `Bytes.ToInt` | library/src/main/java/com/jy/yim/utils/SocketDataUtils.java:53-54 | the decoded length is the Java `int` with the header's bit pattern; it is negative exactly when the first byte has its top bit set |
| `Bytes.IntRoundTrip` | library/src/main/java/com/jy/yim/utils/SocketDataUtils.java:29 | the 4-byte prefix written for any `int` decodes back to that `int` |
| `Bytes.BytesRoundTrip` | library/src/main/java/com/jy/yim/utils/SocketDataUtils.java:53-54 | every 4-byte header is the encoding of the `int` it decodes to, so the conversion is a bijection |
| `SocketData.AssembleFrame` | library/src/main/java/com/jy/yim/utils/SocketDataUtils.java:27-37 | the frame array has `length + 4` bytes; bytes 0..3 are the length bytes and byte `i >= 4` is payload byte `i - 4`, so the frame is header followed by payload |
| `SocketData.FrameLayout` | library/src/main/java/com/jy/yim/utils/SocketDataUtils.java:22-37 | a frame is 4 bytes longer than the compressed payload, its first 4 bytes decode to the payload's length, and the rest is exactly the payload |
| `SocketData.Output` | library/src/main/java/com/jy/yim/utils/SocketDataUtils.java:18-41 | appends the whole frame for `content` to the output stream; when `length + 4` passes `Integer.MAX_VALUE` it fails and writes nothing |
| `SocketData.OutputStream.Write` | library/src/main/java/com/jy/yim/utils/SocketDataUtils.java:39-40 | after write and flush, the stream has received exactly the frame's bytes, after what it had before |
| `SocketData.InputStream.Read` | library/src/main/java/com/jy/yim/utils/SocketDataUtils.java:79-83 | a read of `len > 0` returns -1 exactly at end of stream; otherwise it returns a non-empty piece of at most `len` pending bytes, copies it into the buffer and removes it from the stream |
| `SocketData.GetData` | library/src/main/java/com/jy/yim/utils/SocketDataUtils.java:71-95 | returns the first `min(max(length, 0), pending)` bytes of the stream, whatever its chunking, and leaves the rest unread, so it never reads past `length`; when the stream ends early the result is shorter; with `length <= 0` it makes no read |
| `SocketData.GetDataBody` | library/src/main/java/com/jy/yim/utils/SocketDataUtils.java:50-61 | consumes the 4 header bytes and then `toInt(header)` body bytes, as far as the stream holds them, whatever its chunking; returns the decompressed text or the error `ParseFrame` names |
| `SocketData.FrameRoundTrip` | library/src/main/java/com/jy/yim/utils/SocketDataUtils.java:18-61 | when the codec round-trips, reading a frame off a stream that starts with the frame written for `content` gives `content` and leaves the following bytes, such as a next frame, unread |
| `SocketData.DeliverOverChunkedStream` | library/src/main/java/com/jy/yim/utils/SocketDataUtils.java:18-95 | a text sent with `output` is read back by `getDataBody` however the stream cuts the frame into pieces; if `output` threw, the reader finds no header |
| `Connection.NextSeq` | library/src/main/java/com/jy/yim/core/SocketManager.java:378-384 | the next sequence number of a non-negative one is non-negative; being an `int32`, it never overflows |
| `Connection.SeqAfterWraps` | library/src/main/java/com/jy/yim/core/SocketManager.java:378-384 | after `k` advances from 0 the sequence number is `k mod 2^31`: it climbs to `Integer.MAX_VALUE` and wraps to 0 |
| `Connection.AttemptsOutcome` | library/src/main/java/com/jy/yim/core/SocketManager.java:76-104 | `executeConnect` ends connected iff it was connected or some attempt succeeded while not closed; it never changes the closed flag and posts at most one connect success; it leaves its loop only when connected or closed, unless every attempt failed |
| `Connection.IdleBounded` | library/src/main/java/com/jy/yim/core/SocketManager.java:243-269 | while the heartbeat task runs, the idle time stays within the threshold plus one 5000 ms interval |
| `Connection.QuietTicks` | library/src/main/java/com/jy/yim/core/SocketManager.java:243-269 | while the idle time is below the threshold, each iteration only adds 5000 ms and sends nothing, whatever the send outcomes |
| `Connection.FirstHeartbeat` | library/src/main/java/com/jy/yim/core/SocketManager.java:243-269 | from idle time 0, the first heartbeat goes out in the iteration that finds the idle time at the first multiple of 5000 ms reaching the threshold; after it the idle time is 5000, `seqID` has advanced once and one reply timeout is pending |
| `Connection.InvariantKept` | library/src/main/java/com/jy/yim/core/SocketManager.java:21-25 | over any sequence of operations, `seqID` stays in `[0, Integer.MAX_VALUE]` and `freeTime` stays a non-negative multiple of 5000 |
| `Connection.ClosedStaysClosed` | library/src/main/java/com/jy/yim/core/SocketManager.java:167-213 | after `closeSocket`, no sequence of operations other than `connect` can reconnect: failures, heartbeats, heartbeat-task stops and connect loops leave the manager closed and disconnected, and add no reconnect request and no connection |
| `Manager.SocketManager.constructor` | library/src/main/java/com/jy/yim/core/SocketManager.java:19-47 | a new manager is disconnected, not closed, idle time 0, `seqID` 0, no heartbeat task, and it satisfies the invariant |
| `Manager.SocketManager.AutoSeqID` | library/src/main/java/com/jy/yim/core/SocketManager.java:378-384 | advances `seqID` by one below `Integer.MAX_VALUE` and wraps it to 0 at the maximum; nothing else changes |
| `Manager.SocketManager.Connect` | library/src/main/java/com/jy/yim/core/SocketManager.java:54-59 | ends disconnected and not closed, with the heartbeat task stopped and one connect task queued |
| `Manager.SocketManager.ExecuteConnect` | library/src/main/java/com/jy/yim/core/SocketManager.java:76-104 | follows `Attempts`: it retries while neither connected nor closed, and the outcome is as `AttemptsOutcome` states |
| `Manager.SocketManager.OnReceiveFail` | library/src/main/java/com/jy/yim/core/SocketManager.java:167-175 | clears `isConnected`, requests a reconnect iff the socket is not closed, and leaves `isCloseSocket` as it was |
| `Manager.SocketManager.SendMsg` | library/src/main/java/com/jy/yim/core/SocketManager.java:184-187 | queues the send and advances `seqID` exactly once, whatever the send's outcome |
| `Manager.SocketManager.OnSendFail` | library/src/main/java/com/jy/yim/core/SocketManager.java:205-213 | clears `isConnected`, requests a reconnect iff the socket is not closed, and leaves `isCloseSocket` as it was |
| `Manager.SocketManager.HandleIMMsg` | library/src/main/java/com/jy/yim/core/SocketManager.java:145-152 | resets `freeTime` to 0, removes every pending heartbeat timeout and delivers the message |
| `Manager.SocketManager.StartHeartPackageTask` | library/src/main/java/com/jy/yim/core/SocketManager.java:220-223 | installs a new, running heartbeat task without touching the connection state |
| `Manager.SocketManager.CloseHeartPackageTask` | library/src/main/java/com/jy/yim/core/SocketManager.java:228-232 | stops the current heartbeat task if there is one, with the effects of `stop` |
| `Manager.SocketManager.CloseSocket` | library/src/main/java/com/jy/yim/core/SocketManager.java:335-373 | always ends with `isConnected` false and `isCloseSocket` true, and stops the heartbeat task without requesting a reconnect |
| `Manager.HeartPackageTask.constructor` | library/src/main/java/com/jy/yim/core/SocketManager.java:239 | a new heartbeat task is running |
| `Manager.HeartPackageTask.Stop` | library/src/main/java/com/jy/yim/core/SocketManager.java:273-282 | sets `isStop`, clears `isConnected`, and requests a reconnect iff the socket is not closed |
| `Manager.HeartPackageTask.RunOnce` | library/src/main/java/com/jy/yim/core/SocketManager.java:244-268 | with the link idle at least `maxFreeTime`, a successful send leaves `freeTime` at 5000, advances `seqID` once and arms a timeout; a failed send stops the heartbeat task; otherwise `freeTime` grows by exactly 5000 |
| `Manager.HeartPackageTask.Run` | library/src/main/java/com/jy/yim/core/SocketManager.java:242-270 | follows `Beats`: it iterates while not stopped and returns right after a failed send, so the lemmas on `Beats` hold of it |

## Left out

- Real sockets are not modelled. Creating a socket, the connect timeout, `setTcpNoDelay`, and
  closing the streams, the socket and the receive task in `closeSocket` are I/O with
  suppressed errors; they are not modelled.
- Threads are not modelled. This includes the thread pool, `synchronized` on
  `executeConnect`, races between concurrent sends, and races between the heartbeat, receive
  and connect threads. A heartbeat task that keeps running after it has been replaced is not
  modelled either.
- Handing the heartbeat task to the thread pool in `startHeartPackageTask` is not recorded as
  an event; only the new task object is.
- `Thread.sleep` and real time are not modelled. Only the `freeTime += 5000` arithmetic is.
- The Android `Handler` is not modelled. `MyHandler.dispatchMessage` is left out: the start of
  the receive task on connect success, message dispatch, the weak reference, and the 90-second
  timeout firing and calling `connect`. Posted and removed timeouts are only counted.
- `ReceiveTask`, `SendTask`, `YIMConfig`, `GZipUtils`, `ByteUtil` and `MLogUtils` are not part
  of this model.
- The consumer callbacks are abstract. `onReceiveData` is recorded as `DataDelivered`.
  `connectSucceed` and `handlerMessage` run only from `MyHandler.dispatchMessage`, which is
  left out. The call to `getHeartPackageData` and its content are not modelled; `HeartbeatSent`
  marks a successful heartbeat write.
- `BufferedOutputStream` buffering and `output`'s `size` argument are left out. The argument
  sets the buffer capacity. Its error path is left out too: with `4 * size <= 0` the
  `BufferedOutputStream` constructor throws `IllegalArgumentException` before anything is
  written. The caller in `SocketManager` passes 512.
- `SocketData.GetDataBody`: a header shorter than 4 bytes is modelled as the error
  `ShortHeader`. That is an assumption of this model. The source hands the short array to
  `ByteUtil.toInt`, which is not part of this model; it may throw or decode a partial value.
- `SocketData.InputStream.Read`: an `IOException` from a read, such as a reset connection, is
  not modelled. A read either delivers bytes or reports end of stream.
- `SocketData.Output`: an `IOException` from the write is not modelled here. The heartbeat
  task's write outcome is a parameter instead.
- `SocketData.Output`: compression is taken to always succeed.
- `Manager.SocketManager.constructor`: takes `maxFreeTime` directly. A later call to `init`
  with a different configuration is not modelled.
- `Manager.SocketManager.ExecuteConnect`: runs only as many attempts as outcomes are supplied.
  The source retries without bound.
- `Manager.HeartPackageTask.Run`: runs only as many iterations as outcomes are supplied. The
  source loops until stopped.
- `freeTime` is an unbounded integer. Java `long` overflow after about 292 million years of
  idling is not modelled.
- The public `seqID` field can be written by other code; such writes are not modelled.
- The `isConnected()` getter is not modelled.
