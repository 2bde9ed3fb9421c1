/** What a connection of `rpc_service.py` does with the frames a peer sends:
    every non-empty request on an intact pipe is answered, in order, and
    every byte is consumed; a broken pipe ends the session at the first
    response and writes nothing; a raised exception never ends it; and what
    `call_csharp_method` makes of the frame it reads back. */
module RpcProperties {
  import opened Text
  import opened Utf8
  import opened JsonText
  import opened NamedPipe
  import opened NamedPipeProperties
  import opened RpcService

  /** The bytes a peer sends when it writes `messages` with `write_message`. */
  function Stream(messages: seq<string>): (r: seq<byte>)
    ensures |messages| > 0 ==> r == EncodeFrame(messages[0]) + Stream(messages[1..])
  {
    if |messages| == 0 then [] else EncodeFrame(messages[0]) + Stream(messages[1..])
  }

  /** What the service writes back for each request: the reply text of
      `dispatch` on it. */
  function Answers(requests: seq<string>, dispatch: string -> Reply): (r: seq<string>)
    ensures |r| == |requests|
  {
    if |requests| == 0 then [] else [ReplyText(dispatch(requests[0]))] + Answers(requests[1..], dispatch)
  }

  /** The empty input holds no frame: reading it stops at once. */
  lemma EndOfInput(endError: int)
    ensures ReadFrame([], endError) == (None, 0)
  {
    assert !Contains([], Terminator) by {
      assert !StartsWith([], Terminator);
    }
    TruncatedHeader([], endError);
  }

  /** On an intact pipe, once a non-empty `request` has been read from
      `input` with `used` bytes, the session is the reply to it followed by
      the session on the bytes that follow. */
  lemma SessionAfterRequest(input: seq<byte>, endError: int, dispatch: string -> Reply,
                            request: string, used: nat, rest: seq<byte>)
    requires ReadFrame(input, endError) == (Some(request), used) && request != ""
    requires used <= |input| && input[used..] == rest
    ensures var next := Session(rest, endError, true, dispatch);
            Session(input, endError, true, dispatch) == ([ReplyText(dispatch(request))] + next.0, used + next.1)
  {
  }

  /** On a broken pipe, a request whose dispatch raises is passed over:
      the session goes on with the bytes that follow. */
  lemma BrokenPipeAfterRaised(input: seq<byte>, endError: int, dispatch: string -> Reply,
                              request: string, used: nat, rest: seq<byte>)
    requires ReadFrame(input, endError) == (Some(request), used) && request != ""
    requires used <= |input| && input[used..] == rest && dispatch(request).Raised?
    ensures var next := Session(rest, endError, false, dispatch);
            Session(input, endError, false, dispatch) == (next.0, used + next.1)
  {
  }

  /** A frame of a non-empty request, followed by `rest`, is read whole. */
  lemma RequestRead(request: string, rest: seq<byte>, endError: int) returns (used: nat)
    requires request != "" && LengthFits(request)
    ensures used == |EncodeFrame(request)| && used <= |EncodeFrame(request) + rest|
    ensures ReadFrame(EncodeFrame(request) + rest, endError) == (Some(request), used)
    ensures (EncodeFrame(request) + rest)[used..] == rest
  {
    FrameRoundTrip(request, rest, endError);
    used := |EncodeFrame(request)|;
    assert (EncodeFrame(request) + rest)[used..] == rest;
  }

  /** On an intact pipe, the session on a stream answers its first request
      and goes on with the rest of the stream. */
  lemma SessionStreamStep(requests: seq<string>, endError: int, dispatch: string -> Reply)
    requires |requests| > 0 && requests[0] != "" && LengthFits(requests[0])
    requires Session(Stream(requests[1..]), endError, true, dispatch)
             == (Answers(requests[1..], dispatch), |Stream(requests[1..])|)
    ensures Session(Stream(requests), endError, true, dispatch) == (Answers(requests, dispatch), |Stream(requests)|)
  {
    var rest := Stream(requests[1..]);
    assert Stream(requests) == EncodeFrame(requests[0]) + rest;
    FirstRequestAnswered(requests[0], rest, endError, dispatch);
  }

  /** On an intact pipe, a peer that sends non-empty requests gets one
      reply per request, in order, and the session reads all it sent. */
  lemma {:induction false} SessionAnswersAll(requests: seq<string>, endError: int, dispatch: string -> Reply)
    requires forall i :: 0 <= i < |requests| ==> requests[i] != "" && LengthFits(requests[i])
    ensures Session(Stream(requests), endError, true, dispatch) == (Answers(requests, dispatch), |Stream(requests)|)
    decreases |requests|
  {
    if |requests| == 0 {
      EndOfInput(endError);
    } else {
      SessionAnswersAll(requests[1..], endError, dispatch);
      SessionStreamStep(requests, endError, dispatch);
    }
  }

  /** The reply to request `i` is the `i`-th text written. */
  lemma {:induction false} AnswersAt(requests: seq<string>, dispatch: string -> Reply, i: nat)
    requires i < |requests|
    ensures Answers(requests, dispatch)[i] == ReplyText(dispatch(requests[i]))
    decreases i
  {
    if i > 0 {
      AnswersAt(requests[1..], dispatch, i - 1);
    }
  }

  /** When every write fails, the session writes nothing, whatever it reads. */
  lemma {:induction false} BrokenPipeWritesNothing(input: seq<byte>, endError: int, dispatch: string -> Reply)
    ensures Session(input, endError, false, dispatch).0 == []
    decreases |input|
  {
    var (request, used) := ReadFrame(input, endError);
    if request.Some? && |request.value| > 0 && !(dispatch(request.value).Response?) {
      BrokenPipeWritesNothing(input[used..], endError, dispatch);
    }
  }

  /** On a broken pipe, a request answered with a response ends the session
      right after that request's frame. */
  lemma ResponseOnBrokenPipeEnds(request: string, rest: seq<byte>, endError: int, dispatch: string -> Reply)
    requires request != "" && LengthFits(request) && dispatch(request).Response?
    ensures Session(EncodeFrame(request) + rest, endError, false, dispatch) == ([], |EncodeFrame(request)|)
  {
    FrameRoundTrip(request, rest, endError);
  }

  /** On an intact pipe, the session on a frame of a non-empty request
      followed by `rest` writes the reply to that request, then goes on
      with `rest`. */
  lemma FirstRequestAnswered(request: string, rest: seq<byte>, endError: int, dispatch: string -> Reply)
    requires request != "" && LengthFits(request)
    ensures var next := Session(rest, endError, true, dispatch);
            Session(EncodeFrame(request) + rest, endError, true, dispatch)
            == ([ReplyText(dispatch(request))] + next.0, |EncodeFrame(request)| + next.1)
  {
    var used := RequestRead(request, rest, endError);
    SessionAfterRequest(EncodeFrame(request) + rest, endError, dispatch, request, used, rest);
  }

  /** A request whose dispatch raises never ends the session: on an intact
      pipe the internal error response is written and the next frame read. */
  lemma RaisedContinues(request: string, rest: seq<byte>, endError: int, dispatch: string -> Reply)
    requires request != "" && LengthFits(request) && dispatch(request).Raised?
    ensures var next := Session(rest, endError, true, dispatch);
            Session(EncodeFrame(request) + rest, endError, true, dispatch)
            == ([ErrorResponse(dispatch(request).error)] + next.0, |EncodeFrame(request)| + next.1)
  {
    FirstRequestAnswered(request, rest, endError, dispatch);
  }

  /** On a broken pipe too, a request whose dispatch raises does not end the
      session: nothing is written and the next frame is read. */
  lemma RaisedContinuesOnBrokenPipe(request: string, rest: seq<byte>, endError: int, dispatch: string -> Reply)
    requires request != "" && LengthFits(request) && dispatch(request).Raised?
    ensures var next := Session(rest, endError, false, dispatch);
            Session(EncodeFrame(request) + rest, endError, false, dispatch) == (next.0, |EncodeFrame(request)| + next.1)
  {
    var used := RequestRead(request, rest, endError);
    BrokenPipeAfterRaised(EncodeFrame(request) + rest, endError, dispatch, request, used, rest);
  }

  /** A frame with an empty body ends the session without a reply. */
  lemma EmptyRequestEnds(rest: seq<byte>, endError: int, writable: bool, dispatch: string -> Reply)
    ensures Session(EncodeFrame("") + rest, endError, writable, dispatch).0 == []
  {
    EmptyMessageNotReadBack(rest, endError);
  }

  /** `call_csharp_method` on a response frame holding a non-empty `reply`:
      the outcome is what `parse_json` makes of exactly that text. */
  lemma CallReadsReply<R>(reply: string, rest: seq<byte>, endError: int, parse: string -> Parsed<R>)
    requires reply != "" && LengthFits(reply)
    ensures var outcome := ReplyOutcome(ReadFrame(EncodeFrame(reply) + rest, endError).0, parse);
            && (parse(reply).Ok? ==> outcome == Returned(parse(reply).result))
            && (parse(reply).Error? ==> outcome == Failed(Remote(parse(reply).message, parse(reply).code)))
            && (parse(reply).Other? ==> outcome == Failed(Unexpected(parse(reply).typeName)))
            && (parse(reply).Malformed? ==> outcome == ParseRaised(parse(reply).error))
  {
    FrameRoundTrip(reply, rest, endError);
  }

  /** An empty response frame counts as no response. */
  lemma EmptyReplyFails<R>(rest: seq<byte>, endError: int, parse: string -> Parsed<R>)
    ensures ReplyOutcome(ReadFrame(EncodeFrame("") + rest, endError).0, parse) == Failed(ReceiveFailed)
  {
    EmptyMessageNotReadBack(rest, endError);
  }

  /** Every `RpcError` message names the method that was called. */
  lemma RpcErrorNamesMethod(methodName: string, e: RpcError)
    ensures Contains(RpcErrorText(methodName, e), methodName)
  {
    var text := RpcErrorText(methodName, e);
    var i: nat := match e
      case NoConnection => |"Cannot call '"|
      case SendFailed => |"Failed to send RPC request: "|
      case ReceiveFailed => |"Failed to receive RPC response: "|
      case Remote(_, _) => |"RPC error in '"|
      case Unexpected(_) => |"Unexpected response type for '"|;
    assert text[i..][..|methodName|] == methodName;
    ContainsAt(text, methodName, i);
  }
}
