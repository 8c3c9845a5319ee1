/**
 * The wire-frame codec of `SocketDataUtils`: a frame is the 4-byte big-endian
 * length of the compressed payload followed by the compressed bytes.
 *
 * Compression, decompression and UTF-8 encoding are library calls whose code is
 * not part of this model; they are passed in as a `Gzip` value of three
 * functions, and the round trip is proved for every such value that satisfies
 * `RoundTrips`. Byte streams are objects: an `InputStream` hands out its pending
 * bytes in pieces chosen by an arbitrary chunking function, an `OutputStream`
 * records what was written to it.
 */
module SocketData {
  import opened Bytes
  import opened Wrappers

  /** Capacity of the read buffer of `getData`. */
  const BufferSize: nat := 5120

  /** The three library calls the codec relies on. */
  datatype Gzip = Gzip(
    utf8: string -> seq<Byte>,                        // String.getBytes("UTF-8")
    compress: seq<Byte> -> seq<Byte>,                 // GZipUtils.compressToBtyes
    uncompressToString: seq<Byte> -> Option<string>)  // GZipUtils.uncompressToString; None when it fails

  /** Decompressing and decoding what was encoded and compressed gives back the text. */
  ghost predicate RoundTrips(g: Gzip)
  {
    forall s: string :: g.uncompressToString(g.compress(g.utf8(s))) == Some(s)
  }

  /** Why `output` throws before writing anything. */
  datatype EncodeError =
    | FrameTooLarge  // `new byte[length + 4]` with `length + 4` past Integer.MAX_VALUE

  /** Why `getDataBody` fails. */
  datatype DecodeError =
    | ShortHeader    // the stream ended before 4 header bytes arrived, so `toInt` has no int to read
    | BadPayload     // `uncompressToString` rejected the body

  /** The compressed payload `output` sends for `content`. */
  function Payload(g: Gzip, content: string): seq<Byte>
  {
    g.compress(g.utf8(content))
  }

  /** The frame `output` writes for `content`, or None when it throws first. */
  function Frame(g: Gzip, content: string): Option<seq<Byte>>
  {
    var c := Payload(g, content);
    if |c| + 4 > IntMax as int then None else Some(ToByteArray(|c| as int32) + c)
  }

  /** What `getDataBody` returns for a stream holding `p`, and what it leaves unread. */
  function ParseFrame(g: Gzip, p: seq<Byte>): (Result<string, DecodeError>, seq<Byte>)
  {
    if |p| < 4 then (Failure(ShortHeader), [])
    else
      var k := Min(Max(ToInt(p[..4]) as int, 0), |p| - 4);
      var text := match g.uncompressToString(p[4..4 + k])
        case Some(s) => Success(s)
        case None => Failure(BadPayload);
      (text, p[4 + k..])
  }

  /** A frame announces its payload length in its first 4 bytes and carries exactly that payload after them. */
  lemma FrameLayout(g: Gzip, content: string)
    requires Frame(g, content).Some?
    ensures var f := Frame(g, content).value;
      && |f| == |Payload(g, content)| + 4
      && ToInt(f[..4]) as int == |Payload(g, content)|
      && f[4..] == Payload(g, content)
  {
    IntRoundTrip(|Payload(g, content)| as int32);
  }

  /** Reading one frame off a stream that starts with the frame written for `content` gives `content` back
      and leaves whatever followed the frame unread. */
  lemma FrameRoundTrip(g: Gzip, content: string, rest: seq<Byte>)
    requires RoundTrips(g)
    requires Frame(g, content).Some?
    ensures ParseFrame(g, Frame(g, content).value + rest) == (Success(content), rest)
  {
    var c := Payload(g, content);
    var p := Frame(g, content).value + rest;
    FrameLayout(g, content);
    assert p[..4] == Frame(g, content).value[..4];
    assert p[4..4 + |c|] == c;
    assert p[4 + |c|..] == rest;
  }

  /** The sending side of a socket: everything written so far. */
  class OutputStream {
    var written: seq<Byte>

    constructor ()
      ensures written == []
    {
      written := [];
    }

    /** `write(data)` followed by `flush()`. */
    method Write(data: seq<Byte>)
      modifies this
      ensures written == old(written) + data
    {
      written := written + data;
    }
  }

  /** How many bytes a read hands out when the chunking asks for `want`, `len` were requested
      and `avail` are pending: at least one, never more than requested or pending. */
  function Grant(want: nat, len: nat, avail: nat): (n: nat)
    requires 0 < len && 0 < avail
    ensures 1 <= n <= len && n <= avail
    ensures want <= len && want <= avail ==> n == Max(want, 1)
  {
    Max(1, Min(want, Min(len, avail)))
  }

  /** The receiving side of a socket. `split(k)` chooses the size of the k-th read, so every
      way the network can cut the bytes into non-empty pieces is one `split`. */
  class InputStream {
    var pending: seq<Byte>
    var readCount: nat
    const split: nat -> nat

    constructor (bytes: seq<Byte>, split: nat -> nat)
      ensures pending == bytes && readCount == 0 && this.split == split
    {
      pending := bytes;
      readCount := 0;
      this.split := split;
    }

    /** `read(b, off, len)`: 0 when nothing is asked for, -1 at end of stream, otherwise a
        non-empty piece of at most `len` pending bytes, copied to `b[off..]`. */
    method Read(b: array<Byte>, off: nat, len: nat) returns (n: int)
      requires off + len <= b.Length
      modifies this, b
      ensures readCount == old(readCount) + 1
      ensures len == 0 ==> n == 0
      ensures 0 < len ==> (n <= 0 <==> old(pending) == [])
      ensures 0 < len && old(pending) == [] ==> n == -1
      ensures n <= 0 ==> pending == old(pending) && b[..] == old(b[..])
      ensures 0 < n ==> n == Grant(split(old(readCount)), len, |old(pending)|)
      ensures 0 < n ==> b[off..off + n] == old(pending)[..n] && pending == old(pending)[n..]
      ensures forall i :: 0 <= i < b.Length && !(off <= i < off + n) ==> b[i] == old(b[i])
    {
      readCount := readCount + 1;
      if len == 0 {
        return 0;
      }
      if pending == [] {
        return -1;
      }
      n := Grant(split(readCount - 1), len, |pending|);
      forall i | off <= i < off + n {
        b[i] := pending[i - off];
      }
      pending := pending[n..];
    }
  }

  /** `output`: lines up the 4 header bytes and the payload in one array, index by index. */
  method AssembleFrame(lengthData: seq<Byte>, contentBytes: seq<Byte>) returns (data: array<Byte>)
    requires |lengthData| == 4
    ensures data.Length == |contentBytes| + 4
    ensures forall i :: 0 <= i < 4 ==> data[i] == lengthData[i]
    ensures forall i :: 4 <= i < data.Length ==> data[i] == contentBytes[i - 4]
    ensures data[..] == lengthData + contentBytes
  {
    var length := |contentBytes|;
    data := new Byte[length + 4];
    for i := 0 to length + 4
      invariant forall j :: 0 <= j < i && j < 4 ==> data[j] == lengthData[j]
      invariant forall j :: 4 <= j < i ==> data[j] == contentBytes[j - 4]
    {
      if i < 4 {
        data[i] := lengthData[i];
      } else {
        data[i] := contentBytes[i - 4];
      }
    }
  }

  /** `output`: compresses `content`, writes the frame and flushes it; fails, writing nothing,
      when the frame is too long for a Java array. */
  method Output(os: OutputStream, g: Gzip, content: string) returns (r: Result<(), EncodeError>)
    modifies os
    ensures r.Success? <==> Frame(g, content).Some?
    ensures os.written == old(os.written) + (if r.Success? then Frame(g, content).value else [])
  {
    var contentBytes := g.compress(g.utf8(content));
    var length := |contentBytes|;
    if length + 4 > IntMax as int {
      return Failure(FrameTooLarge);
    }
    var lengthData := ToByteArray(length as int32);
    var data := AssembleFrame(lengthData, contentBytes);
    os.Write(data[..]);
    return Success(());
  }

  /** `getData`: reads until `length` bytes are gathered or the stream ends, never taking a byte
      past `length`. The result is the same however the stream cuts its bytes into pieces. */
  method GetData(input: InputStream, length: int32) returns (data: seq<Byte>)
    modifies input
    ensures data + input.pending == old(input.pending)
    ensures |data| == Min(Max(length as int, 0), |old(input.pending)|)
    ensures length <= 0 ==> input.readCount == old(input.readCount)
    ensures old(input.readCount) <= input.readCount
  {
    var baos: seq<Byte> := [];
    var buffer := new Byte[BufferSize];
    var nIdx: int32 := 0;
    var nReadLen: int := 0;
    while nIdx < length
      invariant 0 <= nIdx as int <= Max(length as int, 0)
      invariant |baos| == nIdx as int
      invariant baos + input.pending == old(input.pending)
      invariant length <= 0 ==> input.readCount == old(input.readCount)
      invariant old(input.readCount) <= input.readCount
      decreases length as int - nIdx as int
    {
      if length as int - nIdx as int >= buffer.Length {
        nReadLen := input.Read(buffer, 0, buffer.Length);
      } else {
        nReadLen := input.Read(buffer, 0, (length - nIdx) as nat);
      }
      if nReadLen > 0 {
        baos := baos + buffer[0..nReadLen];
        nIdx := nIdx + nReadLen as int32;
      } else {
        break;
      }
    }
    data := baos;
  }

  /** `getDataBody`: reads the 4-byte header, then as many body bytes as it announces, and
      decompresses them. */
  method GetDataBody(input: InputStream, g: Gzip) returns (r: Result<string, DecodeError>)
    modifies input
    ensures (r, input.pending) == ParseFrame(g, old(input.pending))
  {
    ghost var p := input.pending;
    var head := GetData(input, 4);
    if |head| < 4 {
      return Failure(ShortHeader);
    }
    assert head == p[..4] && input.pending == p[4..];
    var dataLength := ToInt(head);
    var data := GetData(input, dataLength);
    assert data == p[4..4 + |data|] && input.pending == p[4 + |data|..];
    match g.uncompressToString(data) {
      case Some(s) => r := Success(s);
      case None => r := Failure(BadPayload);
    }
  }

  /** A sender's `output` and a receiver's `getDataBody` on the two ends of one connection:
      however the network cuts the frame into pieces, the receiver reads back the sender's text;
      when `output` threw, nothing was sent and the receiver finds no header. */
  method DeliverOverChunkedStream(g: Gzip, content: string, split: nat -> nat)
    returns (r: Result<string, DecodeError>)
    requires RoundTrips(g)
    ensures Frame(g, content).Some? ==> r == Success(content)
    ensures Frame(g, content).None? ==> r == Failure(ShortHeader)
  {
    var os := new OutputStream();
    var sent := Output(os, g, content);
    var input := new InputStream(os.written, split);
    r := GetDataBody(input, g);
    if sent.Success? {
      FrameRoundTrip(g, content, []);
      assert Frame(g, content).value + [] == os.written;
    }
  }
}
