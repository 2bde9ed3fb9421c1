/** The `Content-Length` framing of `named_pipe.py`: `NamedPipeHandler` reads
    and writes one header-delimited message at a time over a connected pipe,
    and `NamedPipeServer` names the pipe and hands out one handler per client.

    The pipe is modelled by the bytes the peer has sent and that are still
    to be read (`pending`, which every read shortens), the Windows error ReadFile raises once those bytes are
    exhausted (`endError`; 109 is ERROR_BROKEN_PIPE, the peer closed its end),
    whether WriteFile succeeds (`writable`), and the log of buffers handed to
    WriteFile (`written`). */
module NamedPipe {
  import opened Text
  import opened Utf8

  /** The bytes `\r\n\r\n` that end the header block. */
  const Terminator: seq<byte> := [13, 10, 13, 10]
  const ContentLengthKey := "Content-Length:"
  const ErrorBrokenPipe := 109
  /** The namespace prefix `NamedPipeServer` puts before the configured name. */
  const PipePrefix := "\\\\.\\pipe\\"

  // ---------------------------------------------------------------- writing

  /** The header line and blank line `write_message` puts before a body of `n` bytes. */
  function HeaderText(n: nat): string {
    ContentLengthKey + " " + DecimalString(n) + "\r\n\r\n"
  }

  /** The single buffer `write_message` hands to WriteFile: the header,
      declaring the UTF-8 byte length of the body, then the body. */
  function EncodeFrame(message: string): (r: seq<byte>)
    ensures |r| == |Encode(HeaderText(|Encode(message)|))| + |Encode(message)|
  {
    var body := Encode(message);
    Encode(HeaderText(|body|)) + body
  }

  /** The byte length of `message` is within the digit limit of `str`, so
      its header can be written and read back. */
  predicate LengthFits(message: string) {
    FitsStr(|Encode(message)|)
  }

  // ---------------------------------------------------------------- reading

  /** What `win32file.ReadFile` reports. */
  datatype ReadFileOutcome =
    | Completed(code: int, data: seq<byte>)  // the call returned `(result, data)`
    | Win32Error(winerror: int)              // it raised `pywintypes.error`
    | Fault                                  // it raised some other exception

  /** ReadFile on a byte-mode pipe whose peer has sent `pending` and not yet
      had it read: it returns up to `count` of those bytes (and how many it
      consumed), raises `endError` once none are left, and rejects a
      negative size. */
  function ReadFile(pending: seq<byte>, endError: int, count: int): (r: (ReadFileOutcome, nat))
    ensures r.1 <= |pending|
    ensures r.0.Completed? ==> r.0.code == 0 && |r.0.data| <= count && r.0.data == pending[..r.1]
    ensures !r.0.Completed? ==> r.1 == 0
  {
    if count < 0 then (Fault, 0)
    else if |pending| == 0 then (Win32Error(endError), 0)
    else
      var k := if count < |pending| then count else |pending|;
      (Completed(0, pending[..k]), k)
  }

  /** What `_read_bytes` makes of it. */
  datatype ReadResult = Got(bytes: seq<byte>) | NoData | Raised

  /** `_read_bytes`: the data on a zero result, `None` on a non-zero result
      or a broken pipe, and any other error passed on to the caller. */
  function ReadBytesResult(o: ReadFileOutcome): (r: ReadResult)
    ensures r.Got? <==> o.Completed? && o.code == 0
    ensures r.Got? ==> r.bytes == o.data
    ensures r.NoData? <==> (o.Completed? && o.code != 0) || (o.Win32Error? && o.winerror == ErrorBrokenPipe)
  {
    match o
    case Completed(code, data) => if code == 0 then Got(data) else NoData
    case Win32Error(e) => if e == ErrorBrokenPipe then NoData else Raised
    case Fault => Raised
  }

  /** `_read_bytes(count)` on the pipe: its result and how many bytes it consumed. */
  function ReadBytesOn(pending: seq<byte>, endError: int, count: int): (r: (ReadResult, nat))
    ensures r.1 <= |pending|
    ensures r.0.Got? ==> |r.0.bytes| <= count && r.0.bytes == pending[..r.1]
    ensures r.0.Got? ==> (count > 0 ==> |r.0.bytes| > 0)
    ensures !r.0.Got? ==> r.1 == 0
  {
    var (o, k) := ReadFile(pending, endError, count);
    (ReadBytesResult(o), k)
  }

  /** The first `k` bytes of the input hold the terminator. */
  predicate HeaderComplete(input: seq<byte>, k: nat)
    requires k <= |input|
  {
    Contains(input[..k], Terminator)
  }

  /** Where the byte-at-a-time header scan stops once it has gathered
      `input[..e]`: at the first end whose gathered bytes contain the
      terminator, or nowhere if the input runs out first. */
  function ScanHeader(input: seq<byte>, e: nat): (r: Option<nat>)
    requires e <= |input|
    ensures r.Some? ==> e <= r.value <= |input|
    decreases |input| - e
  {
    if HeaderComplete(input, e) then Some(e)
    else if e == |input| then None
    else ScanHeader(input, e + 1)
  }

  /** The text after `Content-Length:` on the first header line that starts
      with it (`line.split(':', 1)[1]`: the key holds no other colon). */
  function ContentLengthValue(lines: seq<string>): (r: Option<string>)
    ensures r.Some? ==> exists k :: 0 <= k < |lines| && StartsWith(lines[k], ContentLengthKey)
    ensures r.None? ==> forall k :: 0 <= k < |lines| ==> !StartsWith(lines[k], ContentLengthKey)
  {
    if |lines| == 0 then None
    else if StartsWith(lines[0], ContentLengthKey) then Some(lines[0][|ContentLengthKey|..])
    else ContentLengthValue(lines[1..])
  }

  /** The declared body length of a header block, or `None` when it is not
      UTF-8, has no `Content-Length` line, or its value is not an integer. */
  function HeaderLength(header: seq<byte>): Option<int> {
    match Decode(header)
    case None => None
    case Some(text) =>
      match ContentLengthValue(Split(text, "\r\n"))
      case None => None
      case Some(v) => PyInt(Strip(v))
  }

  /** `read_message` on a pipe whose peer has sent `input`, once the header
      loop has gathered `input[..k]`: the loop reads a byte at a time until
      the gathered bytes hold the terminator, the header then gives the body
      length, and the body is read. The result is the message (or `None` for
      every failure) and how many bytes were consumed. */
  function ReadFrameFrom(input: seq<byte>, k: nat, endError: int): (r: (Option<string>, nat))
    requires k <= |input|
    ensures k <= r.1 <= |input|
    ensures r.0.Some? ==> k < r.1
    decreases |input| - k
  {
    if HeaderComplete(input, k) then
      match HeaderLength(input[..k])
      case None => (None, k)
      case Some(n) => ReadBody(input, k, endError, n)
    else if k == |input| then (None, |input|)
    else ReadFrameFrom(input, k + 1, endError)
  }

  /** `read_message` on a pipe whose peer has sent `input`. */
  function ReadFrame(input: seq<byte>, endError: int): (r: (Option<string>, nat))
    ensures r.1 <= |input|
    ensures r.0.Some? ==> 0 < r.1
  {
    ReadFrameFrom(input, 0, endError)
  }

  /** The reader in two steps: the header scan finds where the header
      ends, then the header and the body are read. */
  lemma {:induction false} ReadFrameScan(input: seq<byte>, k: nat, endError: int)
    requires k <= |input|
    ensures ReadFrameFrom(input, k, endError)
            == match ScanHeader(input, k)
               case None => (None, |input|)
               case Some(e) =>
                 match HeaderLength(input[..e])
                 case None => (None, e)
                 case Some(n) => ReadBody(input, e, endError, n)
    decreases |input| - k
  {
    if !HeaderComplete(input, k) && k < |input| {
      ReadFrameScan(input, k + 1, endError);
    }
  }

  /** The body step of `read_message`, after `e` header bytes: `n` bytes are
      asked for, and only a non-empty read of exactly `n` bytes is decoded. */
  function ReadBody(input: seq<byte>, e: nat, endError: int, n: int): (r: (Option<string>, nat))
    requires e <= |input|
    ensures e <= r.1 <= |input|
    ensures r.0.Some? ==> 0 < n && r.1 == e + n && Decode(input[e..e + n]) == r.0
  {
    var (got, k) := ReadBytesOn(input[e..], endError, n);
    if got.Got? && |got.bytes| > 0 && |got.bytes| == n then
      assert got.bytes == input[e..e + n];
      (Decode(got.bytes), e + k)
    else (None, e + k)
  }

  /** The peer side of one accepted connection. */
  datatype Peer = Peer(inbound: seq<byte>, endError: int, writable: bool)

  class NamedPipeHandler {
    /** The bytes the peer has sent that have not been read yet. */
    var pending: seq<byte>
    const endError: int
    const writable: bool
    /** The buffers handed to WriteFile, in order. */
    var written: seq<seq<byte>>
    var closed: bool

    constructor (peer: Peer)
      ensures pending == peer.inbound && endError == peer.endError && writable == peer.writable
      ensures written == [] && !closed
    {
      pending, endError, writable := peer.inbound, peer.endError, peer.writable;
      written, closed := [], false;
    }

    /** `_read_bytes(count)` */
    method ReadBytes(count: int) returns (r: ReadResult)
      modifies this`pending
      ensures r == ReadBytesOn(old(pending), endError, count).0
      ensures pending == old(pending)[ReadBytesOn(old(pending), endError, count).1..]
    {
      var outcome: ReadFileOutcome;
      if count < 0 {
        outcome := Fault;
      } else if |pending| == 0 {
        outcome := Win32Error(endError);
      } else {
        var k := if count < |pending| then count else |pending|;
        outcome := Completed(0, pending[..k]);
        pending := pending[k..];
      }
      match outcome
      case Completed(code, data) =>
        r := if code == 0 then Got(data) else NoData;
      case Win32Error(e) =>
        r := if e == ErrorBrokenPipe then NoData else Raised;
      case Fault =>
        r := Raised;
    }

    /** The header loop of `read_message`: reads one byte at a time until
        the gathered bytes hold `\r\n\r\n`; `None` when the pipe runs dry
        first. */
    method ReadHeaderBlock() returns (header: Option<seq<byte>>)
      modifies this`pending
      ensures header.Some? <==> ScanHeader(old(pending), 0).Some?
      ensures header.Some? ==> var e := ScanHeader(old(pending), 0).value;
                               header.value == old(pending)[..e] && pending == old(pending)[e..]
      ensures header.None? ==> pending == []
    {
      ghost var input := pending;
      var headers: seq<byte> := [];
      while !Contains(headers, Terminator)
        invariant |headers| <= |input|
        invariant headers == input[..|headers|] && pending == input[|headers|..]
        invariant ScanHeader(input, |headers|) == ScanHeader(input, 0)
        decreases |pending|
      {
        var chunk := ReadBytes(1);
        if !chunk.Got? || |chunk.bytes| == 0 {
          return None;
        }
        headers := headers + chunk.bytes;
      }
      header := Some(headers);
    }

    /** The line loop of `read_message`: the first line that starts with
        `Content-Length:` decides, and its value must parse as an integer. */
    static method DeclaredLength(lines: seq<string>) returns (contentLength: Option<int>)
      ensures contentLength == match ContentLengthValue(lines)
                               case None => None
                               case Some(v) => PyInt(Strip(v))
    {
      contentLength := None;
      var i := 0;
      while i < |lines|
        invariant 0 <= i <= |lines|
        invariant ContentLengthValue(lines) == ContentLengthValue(lines[i..])
      {
        if StartsWith(lines[i], ContentLengthKey) {
          contentLength := PyInt(Strip(lines[i][|ContentLengthKey|..]));
          return;
        }
        i := i + 1;
      }
    }

    /** `read_message`: gathers the header one byte at a time until it holds
        `\r\n\r\n`, takes the first `Content-Length` line, then reads exactly
        that many bytes; every failure gives `None`. */
    method ReadMessage() returns (message: Option<string>)
      modifies this`pending
      ensures message == ReadFrame(old(pending), endError).0
      ensures pending == old(pending)[ReadFrame(old(pending), endError).1..]
    {
      ghost var input := pending;
      ReadFrameScan(input, 0, endError);
      var block := ReadHeaderBlock();
      if block.None? {
        assert ReadFrame(input, endError) == (None, |input|);
        return None;
      }
      ghost var e := ScanHeader(input, 0).value;
      var headers := block.value;
      var text := Decode(headers);
      var contentLength: Option<int> := None;
      if text.Some? {
        contentLength := DeclaredLength(Split(text.value, "\r\n"));
      }
      assert contentLength == HeaderLength(input[..e]);
      if contentLength.None? {
        assert ReadFrame(input, endError) == (None, e);
        return None;
      }
      assert ReadFrame(input, endError) == ReadBody(input, e, endError, contentLength.value);
      var body := ReadBytes(contentLength.value);
      if !body.Got? || |body.bytes| == 0 || |body.bytes| != contentLength.value {
        return None;
      }
      message := Decode(body.bytes);
    }

    /** `write_message`: one WriteFile of the whole frame; `False` when it raises. */
    method WriteMessage(message: string) returns (ok: bool)
      modifies this`written
      ensures ok == writable
      ensures written == if ok then old(written) + [EncodeFrame(message)] else old(written)
    {
      var frame := EncodeFrame(message);
      if writable {
        written := written + [frame];
        ok := true;
      } else {
        ok := false;
      }
    }
  }

  /** `NamedPipeServer.__init__`: the full pipe name. */
  function FullPipeName(name: string): (r: string)
    ensures StartsWith(r, PipePrefix) && r[|PipePrefix|..] == name
  {
    PipePrefix + name
  }

  class NamedPipeServer {
    const pipeName: string

    constructor (name: string)
      ensures pipeName == FullPipeName(name)
    {
      pipeName := FullPipeName(name);
    }

    /** `accept_client`: a handler for the next connected peer, or `null`
        when creating or connecting the pipe failed. */
    method AcceptClient(next: Option<Peer>) returns (handler: NamedPipeHandler?)
      ensures next.None? ==> handler == null
      ensures next.Some? ==> handler != null && fresh(handler)
      ensures next.Some? ==> handler.pending == next.value.inbound && handler.endError == next.value.endError
      ensures next.Some? ==> handler.writable == next.value.writable
      ensures next.Some? ==> handler.written == [] && !handler.closed
    {
      if next.Some? {
        handler := new NamedPipeHandler(next.value);
      } else {
        handler := null;
      }
    }

    /** `close_pipe`: closes the handle. Closing one that is already closed
        does nothing, since the handle object forgets a handle it has closed;
        an error `CloseHandle` raises is logged and swallowed, so the pipe
        ends up closed either way. */
    static method ClosePipe(handler: NamedPipeHandler)
      modifies handler`closed
      ensures handler.closed
    {
      handler.closed := true;
    }
  }
}
