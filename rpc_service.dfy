/** The JSON-RPC service of the host: the `running` flag of the service
    object, the process-wide service and connection slots, the accept loop,
    the per-connection read, dispatch and write loop with its fallback
    error response, and the outbound `call_csharp_method`.

    Everything runs sequentially here. `running` changes only through
    `Start` and `Stop`, so inside one call of `Run` or `HandleClient` it is
    fixed; the accept loop is given the outcomes of the accepts it will
    make, and stops when they run out. `jsonrpcserver.dispatch`,
    `request_json` and `parse_json` are parameters. */
module RpcService {
  import opened Text
  import opened Utf8
  import opened NamedPipe
  import opened JsonText

  /** What `dispatch(request)` does: returns a response text, or raises
      an exception whose `str` is `error`. */
  datatype Reply = Response(text: string) | Raised(error: string)

  /** The text the session writes for a reply: the response itself, or the
      JSON-RPC internal-error response carrying the exception's text. */
  function ReplyText(reply: Reply): string {
    match reply
    case Response(text) => text
    case Raised(error) => ErrorResponse(error)
  }

  /** The error response written for a raised exception carries
      `"Internal error: "` followed by the exception's text. */
  lemma ReplyTextRaised(error: string)
    ensures ErrorResponseMessage(ReplyText(Reply.Raised(error))) == Some(InternalErrorPrefix + error)
  {
    ErrorResponseRoundTrip(error);
  }

  /** The buffers `write_message` hands to WriteFile for `messages`. */
  function Frames(messages: seq<string>): (r: seq<seq<byte>>)
    ensures |r| == |messages|
  {
    if |messages| == 0 then [] else [EncodeFrame(messages[0])] + Frames(messages[1..])
  }

  /** One session on a connection whose peer has sent `input`, while the
      service keeps running: the texts written back, in order, and the
      number of inbound bytes read. A message that cannot be read (or is
      empty) ends the session; a response whose write fails ends it; the
      error response's write may fail without ending it. */
  function Session(input: seq<byte>, endError: int, writable: bool, dispatch: string -> Reply): (r: (seq<string>, nat))
    ensures r.1 <= |input|
    decreases |input|
  {
    var read := ReadFrame(input, endError);
    var request, used := read.0, read.1;
    if request.None? || |request.value| == 0 then ([], used)
    else
      var reply := dispatch(request.value);
      if reply.Response? && !writable then ([], used)
      else
        var next := Session(input[used..], endError, writable, dispatch);
        (if writable then [ReplyText(reply)] + next.0 else next.0, used + next.1)
  }

  /** A session `whole` that begins with `replies` written over `used`
      bytes and, when it goes on `serving`, continues as the session `rest`. */
  ghost predicate Continues(whole: (seq<string>, nat), replies: seq<string>, used: nat, serving: bool,
                            rest: (seq<string>, nat))
  {
    if serving then whole == (replies + rest.0, used + rest.1) else whole == (replies, used)
  }

  lemma ContinuesThen(whole: (seq<string>, nat), replies: seq<string>, used: nat, middle: (seq<string>, nat),
                      more: seq<string>, moreUsed: nat, serving: bool, rest: (seq<string>, nat))
    requires Continues(whole, replies, used, true, middle)
    requires Continues(middle, more, moreUsed, serving, rest)
    ensures Continues(whole, replies + more, used + moreUsed, serving, rest)
  {
    if serving {
      assert replies + (more + rest.0) == replies + more + rest.0;
    }
  }

  /** The state of `_handle_client` after `consumed` bytes of `input`
      have been read and `replies` written after the buffers `start`:
      `whole` is the session on `input` and `rest` the one on what is left. */
  ghost predicate Serving(input: seq<byte>, start: seq<seq<byte>>, replies: seq<string>, consumed: nat,
                          serving: bool, pending: seq<byte>, written: seq<seq<byte>>,
                          whole: (seq<string>, nat), rest: (seq<string>, nat))
  {
    consumed <= |input| && pending == input[consumed..] && written == start + Frames(replies)
    && Continues(whole, replies, consumed, serving, rest)
  }

  lemma ServingFromStart(input: seq<byte>, start: seq<seq<byte>>, whole: (seq<string>, nat))
    ensures Serving(input, start, [], 0, true, input, start, whole, whole)
  {
    assert input[0..] == input;
    FramesOf([]);
    assert [] + whole.0 == whole.0;
  }

  /** One more turn of the session keeps `Serving`. */
  lemma ServingStep(input: seq<byte>, start: seq<seq<byte>>, replies: seq<string>, consumed: nat,
                    pending: seq<byte>, written: seq<seq<byte>>, whole: (seq<string>, nat),
                    middle: (seq<string>, nat), used: nat, more: seq<string>, serving: bool,
                    pending': seq<byte>, written': seq<seq<byte>>, rest: (seq<string>, nat))
    requires Serving(input, start, replies, consumed, true, pending, written, whole, middle)
    requires used <= |pending| && pending' == pending[used..] && written' == written + Frames(more)
    requires Continues(middle, more, used, serving, rest)
    ensures Serving(input, start, replies + more, consumed + used, serving, pending', written', whole, rest)
  {
    assert input[consumed..][used..] == input[consumed + used..];
    FramesConcat(replies, more);
    AppendAssociative(start, Frames(replies), Frames(more));
    ContinuesThen(whole, replies, consumed, middle, more, used, serving, rest);
  }

  /** The peers that connected, in order: `accept_client` gives `None`
      for the others. */
  function Connected(peers: seq<Option<Peer>>): (r: seq<Peer>)
    ensures |r| <= |peers|
  {
    if |peers| == 0 then []
    else Connected(peers[..|peers| - 1]) + (if peers[|peers| - 1].Some? then [peers[|peers| - 1].value] else [])
  }

  /** `handler` has been through a whole session with `peer` and been closed. */
  ghost predicate Served(handler: NamedPipeHandler, peer: Peer, dispatch: string -> Reply)
    reads handler
  {
    var (replies, used) := Session(peer.inbound, peer.endError, peer.writable, dispatch);
    handler.endError == peer.endError && handler.writable == peer.writable && handler.closed
    && handler.written == Frames(replies) && handler.pending == peer.inbound[used..]
  }

  ghost predicate AllServed(handlers: seq<NamedPipeHandler>, peers: seq<Peer>, dispatch: string -> Reply)
    reads set h | h in handlers
  {
    |handlers| == |peers| && forall j {:trigger Served(handlers[j], peers[j], dispatch)} :: 0 <= j < |handlers| ==> Served(handlers[j], peers[j], dispatch)
  }

  lemma ServedStep(handlers: seq<NamedPipeHandler>, peers: seq<Option<Peer>>, i: nat,
                   handler: NamedPipeHandler?, dispatch: string -> Reply, handlers': seq<NamedPipeHandler>)
    requires i < |peers| && AllServed(handlers, Connected(peers[..i]), dispatch)
    requires peers[i].None? ==> handlers' == handlers
    requires peers[i].Some? ==> handler != null && handlers' == handlers + [handler]
                                && Served(handler, peers[i].value, dispatch)
    ensures AllServed(handlers', Connected(peers[..i + 1]), dispatch)
  {
    assert peers[..i + 1][..i] == peers[..i];
    if peers[i].None? {
      assert Connected(peers[..i]) + [] == Connected(peers[..i]);
    } else {
      var served := Connected(peers[..i]) + [peers[i].value];
      forall j | 0 <= j < |handlers'| ensures Served(handlers'[j], served[j], dispatch) {
        if j < |handlers| {
          assert Served(handlers[j], Connected(peers[..i])[j], dispatch);
        }
      }
    }
  }

  /** The module globals `_rpc_service` and `_pipe_handler`. */
  class HostState {
    var rpcService: CelbridgeRpcService?
    var pipeHandler: NamedPipeHandler?

    constructor ()
      ensures rpcService == null && pipeHandler == null
    {
      rpcService, pipeHandler := null, null;
    }
  }

  class CelbridgeRpcService {
    const pipeServer: NamedPipeServer
    var running: bool
    /** Whether `self.thread` holds a thread object. */
    var hasThread: bool
    /** How many background threads `start` has launched. */
    var threadsStarted: nat

    constructor (pipeName: string)
      ensures fresh(pipeServer) && pipeServer.pipeName == FullPipeName(pipeName)
      ensures !running && !hasThread && threadsStarted == 0
    {
      pipeServer := new NamedPipeServer(pipeName);
      running, hasThread, threadsStarted := false, false, 0;
    }

    /** `start`: a no-op on a running service; otherwise sets `running`,
        creates the thread object and launches it. `spawnFails` stands for
        `Thread.start` raising, which `raised` reports after `running` and
        the thread object have already been set. */
    method Start(spawnFails: bool) returns (raised: bool)
      modifies this`running, this`hasThread, this`threadsStarted
      ensures running
      ensures old(running) ==> !raised && hasThread == old(hasThread) && threadsStarted == old(threadsStarted)
      ensures !old(running) ==> raised == spawnFails && hasThread
      ensures !old(running) ==> threadsStarted == old(threadsStarted) + (if spawnFails then 0 else 1)
    {
      if running {
        return false;
      }
      running := true;
      hasThread := true;
      if spawnFails {
        return true;
      }
      threadsStarted := threadsStarted + 1;
      raised := false;
    }

    /** `stop`: clears `running` and waits for nothing; the thread, if
        any, ends once its current session does. */
    method Stop()
      modifies this`running
      ensures !running
    {
      running := false;
    }

    /** `_run`: while the service runs, accept the next peer (`peers`
        lists what each accept yields), serve it to the end of its session
        and close its pipe. The handlers of the peers served are returned. */
    method Run(state: HostState, peers: seq<Option<Peer>>, dispatch: string -> Reply)
      returns (handlers: seq<NamedPipeHandler>)
      modifies state`pipeHandler
      ensures !running ==> handlers == []
      ensures running ==> AllServed(handlers, Connected(peers), dispatch)
      ensures forall h :: h in handlers ==> fresh(h)
      ensures state.pipeHandler == if running && |Connected(peers)| > 0 then null else old(state.pipeHandler)
    {
      handlers := [];
      var i := 0;
      while running && i < |peers|
        invariant 0 <= i <= |peers|
        invariant !running ==> i == 0
        invariant AllServed(handlers, Connected(peers[..i]), dispatch)
        invariant forall h :: h in handlers ==> fresh(h)
        invariant state.pipeHandler == if |handlers| > 0 then null else old(state.pipeHandler)
      {
        var handler := ServeNext(state, peers[i], dispatch);
        ghost var before := handlers;
        if handler != null {
          handlers := handlers + [handler];
        }
        ServedStep(before, peers, i, handler, dispatch, handlers);
        i := i + 1;
      }
      assert running ==> peers[..i] == peers;
    }

    /** One turn of the `_run` loop: accept the next peer and, when one
        connected, serve it to the end of its session and close its pipe. */
    method ServeNext(state: HostState, next: Option<Peer>, dispatch: string -> Reply)
      returns (handler: NamedPipeHandler?)
      modifies state`pipeHandler
      ensures next.None? ==> handler == null && state.pipeHandler == old(state.pipeHandler)
      ensures next.Some? ==> handler != null && fresh(handler) && state.pipeHandler == null
      ensures next.Some? && running ==> Served(handler, next.value, dispatch)
    {
      handler := pipeServer.AcceptClient(next);
      if handler != null {
        HandleClient(state, handler, dispatch);
        NamedPipeServer.ClosePipe(handler);
        assert [] + handler.written == handler.written;
      }
    }

    /** `_handle_client`: publishes the handler in the connection slot, then
        reads, dispatches and writes while the service runs, and clears the
        slot on every way out. */
    method HandleClient(state: HostState, handler: NamedPipeHandler, dispatch: string -> Reply)
      modifies state`pipeHandler, handler`pending, handler`written
      ensures state.pipeHandler == null
      ensures running ==>
                var (replies, used) := Session(old(handler.pending), handler.endError, handler.writable, dispatch);
                handler.written == old(handler.written) + Frames(replies)
                && handler.pending == old(handler.pending)[used..]
      ensures !running ==> handler.pending == old(handler.pending) && handler.written == old(handler.written)
    {
      state.pipeHandler := handler;
      ghost var input, start := handler.pending, handler.written;
      ghost var consumed: nat, replies: seq<string> := 0, [];
      var endError, writable := handler.endError, handler.writable;
      ServingFromStart(input, start, Session(input, endError, writable, dispatch));
      var serving := true;
      while running && serving
        invariant state.pipeHandler == handler
        invariant !running ==> consumed == 0 && replies == []
        invariant Serving(input, start, replies, consumed, serving, handler.pending, handler.written,
                          Session(input, endError, writable, dispatch),
                          Session(handler.pending, endError, writable, dispatch))
        decreases |handler.pending|, serving
      {
        ghost var pending, written := handler.pending, handler.written;
        ghost var used: nat, more: seq<string>;
        serving, used, more := ServeRequest(handler, dispatch);
        ServingStep(input, start, replies, consumed, pending, written, Session(input, endError, writable, dispatch),
                    Session(pending, endError, writable, dispatch), used, more, serving,
                    handler.pending, handler.written, Session(handler.pending, endError, writable, dispatch));
        replies, consumed := replies + more, consumed + used;
      }
      state.pipeHandler := null;
    }

    /** One turn of the `_handle_client` loop: read a request; stop on
        `None` or an empty one; otherwise dispatch it and answer. `used`
        and `replies` are the bytes read and the texts written. */
    method ServeRequest(handler: NamedPipeHandler, dispatch: string -> Reply)
      returns (serving: bool, ghost used: nat, ghost replies: seq<string>)
      modifies handler`pending, handler`written
      ensures used <= |old(handler.pending)| && handler.pending == old(handler.pending)[used..]
      ensures serving ==> 0 < used
      ensures handler.written == old(handler.written) + Frames(replies)
      ensures Continues(Session(old(handler.pending), handler.endError, handler.writable, dispatch), replies, used, serving,
                        Session(handler.pending, handler.endError, handler.writable, dispatch))
    {
      ghost var input := handler.pending;
      var request := handler.ReadMessage();
      used := ReadFrame(input, handler.endError).1;
      if request.None? || |request.value| == 0 {
        FramesOf([]);
        return false, used, [];
      }
      serving, replies := Answer(handler, dispatch(request.value));
      if serving && !handler.writable {
        ghost var rest := Session(handler.pending, handler.endError, handler.writable, dispatch).0;
        assert [] + rest == rest;
      }
    }

    /** The rest of the turn once `dispatch` has given `reply`: a response
        is written and a failed write ends the session; a raised exception
        has the internal-error response written, whose failure is ignored. */
    static method Answer(handler: NamedPipeHandler, reply: Reply) returns (serving: bool, ghost replies: seq<string>)
      modifies handler`written
      ensures serving == (reply.Raised? || handler.writable)
      ensures replies == if handler.writable then [ReplyText(reply)] else []
      ensures handler.written == old(handler.written) + Frames(replies)
    {
      replies := if handler.writable then [ReplyText(reply)] else [];
      FramesOf(replies);
      match reply {
        case Response(text) =>
          var ok := handler.WriteMessage(text);
          serving := ok;
        case Raised(error) =>
          var errorResponse := ErrorResponse(error);
          var _ := handler.WriteMessage(errorResponse);
          serving := true;
      }
    }
  }

  /** `initialize_rpc_service`: `pipeName` is `CELBRIDGE_RPC_PIPE` and
      `spawnFails` whether the new thread fails to start. Without a name,
      or with a service already registered, nothing changes. Otherwise a
      new service is registered and started; when its thread fails to
      start the result is `False`, but the service stays registered with
      `running` set. */
  method InitializeRpcService(state: HostState, pipeName: Option<string>, spawnFails: bool) returns (started: bool)
    modifies state`rpcService
    ensures pipeName.None? || pipeName.value == "" || old(state.rpcService) != null ==>
              !started && state.rpcService == old(state.rpcService)
    ensures pipeName.Some? && pipeName.value != "" && old(state.rpcService) == null ==>
              && state.rpcService != null && fresh(state.rpcService)
              && state.rpcService.pipeServer.pipeName == FullPipeName(pipeName.value)
              && state.rpcService.running && state.rpcService.hasThread
              && state.rpcService.threadsStarted == (if spawnFails then 0 else 1)
              && started == !spawnFails
  {
    if pipeName.None? || pipeName.value == "" {
      return false;
    }
    if state.rpcService != null {
      return false;
    }
    var service := new CelbridgeRpcService(pipeName.value);
    state.rpcService := service;
    var raised := service.Start(spawnFails);
    started := !raised;
  }

  /** `shutdown_rpc_service`: stops the registered service, if any, and
      clears the slot. */
  method ShutdownRpcService(state: HostState)
    modifies state`rpcService, (if state.rpcService == null then {} else {state.rpcService})`running
    ensures state.rpcService == null
    ensures old(state.rpcService) != null ==> !old(state.rpcService).running
  {
    var service := state.rpcService;
    if service != null {
      service.Stop();
      state.rpcService := null;
    }
  }

  /** `get_pipe_handler`: the handler of the session in progress, if any. */
  function GetPipeHandler(state: HostState): NamedPipeHandler?
    reads state
  {
    state.pipeHandler
  }

  /** Why `call_csharp_method` raises `RpcError`. */
  datatype RpcError =
    | NoConnection
    | SendFailed
    | ReceiveFailed
    | Remote(message: string, code: int)
    | Unexpected(typeName: string)

  /** The text of the `RpcError` raised by a call of `methodName`. */
  function RpcErrorText(methodName: string, e: RpcError): string {
    match e
    case NoConnection => "Cannot call '" + methodName + "': No active pipe connection to C#"
    case SendFailed => "Failed to send RPC request: " + methodName
    case ReceiveFailed => "Failed to receive RPC response: " + methodName
    case Remote(message, code) =>
      "RPC error in '" + methodName + "': " + message + " (code: " + IntString(code) + ")"
    case Unexpected(typeName) => "Unexpected response type for '" + methodName + "': " + typeName
  }

  /** What `parse_json` makes of a response text: `Ok`, `Error`, another
      object (named by its type), or an exception it raises. */
  datatype Parsed<R> = Ok(result: R) | Error(message: string, code: int) | Other(typeName: string) | Malformed(error: string)

  /** How `call_csharp_method` ends: a result, an `RpcError`, or the
      exception `parse_json` raised, which is not caught. */
  datatype CallOutcome<R> = Returned(result: R) | Failed(error: RpcError) | ParseRaised(exception: string)

  /** The outcome once the request has been written and `reply` read. */
  function ReplyOutcome<R>(reply: Option<string>, parse: string -> Parsed<R>): (r: CallOutcome<R>)
    ensures r.Returned? ==> reply.Some? && parse(reply.value) == Ok(r.result)
    ensures reply.None? || reply.value == "" <==> r == Failed(ReceiveFailed)
  {
    if reply.None? || reply.value == "" then Failed(ReceiveFailed)
    else match parse(reply.value)
      case Ok(result) => Returned(result)
      case Error(message, code) => Failed(Remote(message, code))
      case Other(typeName) => Failed(Unexpected(typeName))
      case Malformed(error) => ParseRaised(error)
  }

  /** `call_csharp_method`: `request` is the text `request_json` builds for
      the call. Without a connection nothing is written; when the write
      fails nothing is read; otherwise the next frame on the pipe is taken
      as the response. */
  method CallCSharpMethod<R>(state: HostState, request: string, parse: string -> Parsed<R>)
    returns (outcome: CallOutcome<R>)
    modifies state.pipeHandler
    ensures state.pipeHandler == old(state.pipeHandler)
    ensures state.pipeHandler == null ==> outcome == Failed(NoConnection)
    ensures state.pipeHandler != null && !state.pipeHandler.writable ==>
              outcome == Failed(SendFailed) && unchanged(state.pipeHandler)
    ensures state.pipeHandler != null && state.pipeHandler.writable ==>
              var (reply, used) := ReadFrame(old(state.pipeHandler.pending), state.pipeHandler.endError);
              && state.pipeHandler.written == old(state.pipeHandler.written) + [EncodeFrame(request)]
              && state.pipeHandler.pending == old(state.pipeHandler.pending)[used..]
              && state.pipeHandler.closed == old(state.pipeHandler.closed)
              && outcome == ReplyOutcome(reply, parse)
  {
    var handler := GetPipeHandler(state);
    if handler == null {
      return Failed(NoConnection);
    }
    var ok := handler.WriteMessage(request);
    if !ok {
      return Failed(SendFailed);
    }
    var reply := handler.ReadMessage();
    outcome := ReplyOutcome(reply, parse);
  }

  /** The frames of no message and of one message. */
  lemma {:induction false} FramesOf(messages: seq<string>)
    requires |messages| <= 1
    ensures Frames(messages) == if |messages| == 0 then [] else [EncodeFrame(messages[0])]
  {
    if |messages| == 1 {
      assert messages[1..] == [];
    }
  }

  lemma {:induction false} FramesConcat(a: seq<string>, b: seq<string>)
    ensures Frames(a + b) == Frames(a) + Frames(b)
    decreases |a|
  {
    if |a| == 0 {
      assert a + b == b;
    } else {
      assert (a + b)[1..] == a[1..] + b;
      FramesConcat(a[1..], b);
    }
  }
}
