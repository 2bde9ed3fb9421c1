# celbridge_host in Dafny

A model of the core of `celbridge_host`, the Python package that Celbridge
embeds in its Python host process. The model covers four parts:

- **Framing** (`named_pipe.dfy`, `named_pipe_properties.dfy`). This is the `Content-Length: N\r\n\r\n<body>` framing of
  `NamedPipeHandler`:
  - `write_message` builds one buffer;
  - `read_message` gathers the header one byte at a time, takes the first
    `Content-Length` line, then reads exactly that many body bytes;
  - `_read_bytes` maps the result of `ReadFile`.

  The pipe is a class holding the bytes the peer has sent and not yet read,
  the buffers handed to `WriteFile`, and a closed flag. The frame reader is
  proved against a pure specification `ReadFrame`. That specification
  round-trips with the encoder `EncodeFrame`, and every failure path of the
  reader is stated on its own.
- **The RPC service** (`rpc_service.dfy`, `rpc_properties.dfy`). This covers:
  - the `running` flag of `CelbridgeRpcService` (`start`, `stop`);
  - the accept loop `_run` and the session loop `_handle_client`;
  - the module globals `_rpc_service` and `_pipe_handler`, held in a
    `HostState` object;
  - `initialize_rpc_service` and `shutdown_rpc_service`;
  - the outbound `call_csharp_method`.

  A session is specified by the function `Session`, which gives the texts
  written back and the bytes consumed. The lemmas show the following:
  - each non-empty request on an intact pipe gets one reply, in arrival order;
  - a raised `dispatch` gives the JSON-RPC internal error response (code
    -32603, section 5.1 of the JSON-RPC 2.0 specification) and the session
    goes on;
  - a broken pipe writes nothing.

  The error response is written out in `json_text.dfy` as the text that
  `json.dumps` produces, and its message is proved to read back.
- **The CLI proxy** (`celbridge_host.dfy`). This covers:
  - the stderr filter `_clean_error_message`;
  - the translation of a Python call into CLI arguments by `command_wrapper`;
  - the usage text of `_format_command_help`;
  - the first-match search of `_get_command_help`;
  - what a failed command prints.
- **Logging configuration** (`logging_config.dfy`). This covers:
  - the environment overrides;
  - the level lookup;
  - the choice of old log files to delete, and the deletion loop that
    survives failures;
  - the time-stamped file name, whose sort order is proved to be its
    creation order.

Python's own string operations, `int()`, `str()` of an integer and strict
UTF-8 are written out in `text.dfy` and `utf8.dfy`.

Foreign and library calls appear as parameters:
- the peer behind a pipe is a `Peer` value holding its bytes, the error
  `ReadFile` reports at their end, and whether writes succeed;
- `jsonrpcserver.dispatch` is a function `string -> Reply`;
- `parse_json` and `json.loads` are functions;
- a run of the CLI is a function from arguments to a `CliResult`;
- the sorted `glob` listing is a sequence;
- `os.remove` acts on a `LogFolder` object;
- `datetime.now()` is a `Timestamp`.

## Model

Some operations are specification functions without a contract of their
own. What they mean is stated by the lemmas and methods about them, which
have rows:
- `CelbridgeHost.CommandWrapper`: `FailedCommandShowsItsHelp` and `SucceededCommandReturns`;
- `CelbridgeHost.CommandArgs`: `BuildCommandArgs` and `CommandArgsLayout`;
- `CelbridgeHost.HelpText`: `FormatCommandHelp` and `HelpTextLayout`;
- `NamedPipe.HeaderLength`: `HeaderDeclares`, `MissingContentLength`, `MalformedContentLength` and `FirstContentLengthWins`;
- `Text.PyInt`: `PyIntDigits`, `PyIntNegatedDigits` and `IntStringRoundTrip`;
- `JsonText.ErrorResponse`: `ErrorResponseQuotesMessage`, `ErrorResponseAscii` and `ErrorResponseRoundTrip`;
- `RpcService.RpcErrorText`: `RpcErrorNamesMethod`;
- `LoggingConfig.LevelAttribute`: `AsWrittenLevel`, `NumericLevel`, `LevelNamesAnyCase` and `NonLevelNamesRaise`;
- `LoggingConfig.FilesToDelete`: `FilesToDeleteCount` and `OldestAreDeleted`;
- `LoggingConfig.LogFileName`: `LogFileNameOrder`.

`RpcService.GetPipeHandler` only reads the slot whose value the contracts
of `HandleClient` and `ServeNext` state.

| member | source | states |
|---|---|---|
| NamedPipe.EncodeFrame | python/packages/celbridge_host/src/celbridge_host/named_pipe.py:74-79 | the frame is the UTF-8 header declaring the body's byte count, followed by the body bytes; its length is the sum of the two |
| NamedPipe.ReadFile | python/packages/celbridge_host/src/celbridge_host/named_pipe.py:97 | a completed read returns at most `count` bytes, and they are the front of what the peer sent; a failed read consumes nothing |
| NamedPipe.ReadBytesResult | python/packages/celbridge_host/src/celbridge_host/named_pipe.py:97-107 | data is returned exactly on a zero result; `None` on a non-zero result or on broken pipe (winerror 109); any other error re-raises |
| NamedPipe.ReadBytesOn | python/packages/celbridge_host/src/celbridge_host/named_pipe.py:87-107 | `_read_bytes` gives a prefix of at most `count` unread bytes, and is non-empty for a positive count; nothing is consumed otherwise |
| NamedPipe.ScanHeader | python/packages/celbridge_host/src/celbridge_host/named_pipe.py:33-38 | the byte-at-a-time header scan stops at or before the end of the input |
| NamedPipe.ContentLengthValue | python/packages/celbridge_host/src/celbridge_host/named_pipe.py:43-46 | a value is found exactly when some header line starts with `Content-Length:` |
| NamedPipe.ReadFrameFrom | python/packages/celbridge_host/src/celbridge_host/named_pipe.py:33-58 | the reader consumes forward from the scan position, and consumes something whenever it returns a message |
| NamedPipe.ReadFrame | python/packages/celbridge_host/src/celbridge_host/named_pipe.py:25-62 | `read_message` never consumes more than was sent, and a message it returns has consumed bytes |
| NamedPipe.ReadFrameScan | python/packages/celbridge_host/src/celbridge_host/named_pipe.py:33-38 | the reader is the header scan followed by the body step at the position where the scan stops |
| NamedPipe.ReadBody | python/packages/celbridge_host/src/celbridge_host/named_pipe.py:53-58 | a body is returned only when exactly `n > 0` bytes were read and they decode as UTF-8 to it |
| NamedPipe.NamedPipeHandler.constructor | python/packages/celbridge_host/src/celbridge_host/named_pipe.py:17-23 | a fresh handler has all the peer's bytes unread, nothing written, and is open |
| NamedPipe.NamedPipeHandler.ReadBytes | python/packages/celbridge_host/src/celbridge_host/named_pipe.py:87-107 | the method returns `ReadBytesOn` of the unread bytes and removes exactly the bytes it consumed |
| NamedPipe.NamedPipeHandler.ReadHeaderBlock | python/packages/celbridge_host/src/celbridge_host/named_pipe.py:33-38 | the loop returns the header exactly when the scan finds one, and it is the bytes up to the scan's stop; at end of data everything has been consumed |
| NamedPipe.NamedPipeHandler.DeclaredLength | python/packages/celbridge_host/src/celbridge_host/named_pipe.py:42-46 | the line loop yields `int()` of the stripped value of the first `Content-Length:` line, or `None` |
| NamedPipe.NamedPipeHandler.ReadMessage | python/packages/celbridge_host/src/celbridge_host/named_pipe.py:25-62 | `read_message` returns `ReadFrame` of the unread bytes and consumes exactly what `ReadFrame` consumes |
| NamedPipe.NamedPipeHandler.WriteMessage | python/packages/celbridge_host/src/celbridge_host/named_pipe.py:64-85 | the result is `True` exactly when the write succeeds, and then exactly one buffer, the whole frame, is appended to what was written |
| NamedPipe.FullPipeName | python/packages/celbridge_host/src/celbridge_host/named_pipe.py:119 | the full name is `\\.\pipe\` followed by the given name, unchanged |
| NamedPipe.NamedPipeServer.constructor | python/packages/celbridge_host/src/celbridge_host/named_pipe.py:113-120 | the server holds the full pipe name |
| NamedPipe.NamedPipeServer.AcceptClient | python/packages/celbridge_host/src/celbridge_host/named_pipe.py:122-174 | no peer gives `None`; a peer gives a fresh, open handler with all of that peer's bytes unread |
| NamedPipe.NamedPipeServer.ClosePipe | python/packages/celbridge_host/src/celbridge_host/named_pipe.py:176-186 | after the call the pipe is closed, whether or not it was before, and the call never raises, so closing twice is harmless |
| NamedPipeProperties.FrameRoundTrip | python/packages/celbridge_host/src/celbridge_host/named_pipe.py:33-58 | `read_message` on a frame of a non-empty message whose byte count `str` converts, whatever follows, returns that message and stops exactly at the frame's end |
| NamedPipeProperties.TwoFramesInOrder | python/packages/celbridge_host/src/celbridge_host/named_pipe.py:33-58 | two frames written in a row are read back in order, each consuming exactly its own bytes |
| NamedPipeProperties.HeaderDeclares | python/packages/celbridge_host/src/celbridge_host/named_pipe.py:43-45 | the header `write_message` writes declares, to `read_message`, the length it was built with, for every length of at most 4300 digits |
| NamedPipeProperties.DeclaredLengthCountsBytes | python/packages/celbridge_host/src/celbridge_host/named_pipe.py:74-76 | the declared length is the UTF-8 byte count, which equals the character count exactly for ASCII text |
| NamedPipeProperties.ScanHeaderFirst | python/packages/celbridge_host/src/celbridge_host/named_pipe.py:33-38 | the scan stops at the first position where the gathered bytes hold `\r\n\r\n`, and fails only when no position does |
| NamedPipeProperties.ScanStopsAtTerminator | python/packages/celbridge_host/src/celbridge_host/named_pipe.py:33-38 | the header ends with `\r\n\r\n`, so no body byte is consumed before the length is known |
| NamedPipeProperties.TruncatedHeader | python/packages/celbridge_host/src/celbridge_host/named_pipe.py:35-37 | input that ends before the terminator gives `None` |
| NamedPipeProperties.MissingContentLength | python/packages/celbridge_host/src/celbridge_host/named_pipe.py:48-50 | a header without a `Content-Length:` line gives `None` |
| NamedPipeProperties.MalformedContentLength | python/packages/celbridge_host/src/celbridge_host/named_pipe.py:45-62 | a length value that `int()` rejects gives `None` |
| NamedPipeProperties.FirstContentLengthWins | python/packages/celbridge_host/src/celbridge_host/named_pipe.py:43-46 | among several `Content-Length:` lines the first one decides |
| NamedPipeProperties.ShortBody | python/packages/celbridge_host/src/celbridge_host/named_pipe.py:53-56 | a body shorter than declared gives `None` |
| NamedPipeProperties.EmptyMessageNotReadBack | python/packages/celbridge_host/src/celbridge_host/named_pipe.py:53-56 | the frame `write_message("")` writes is read back as `None` |
| NamedPipeProperties.ReadNeverEmpty | python/packages/celbridge_host/src/celbridge_host/named_pipe.py:54 | `read_message` never returns the empty string |
| Text.PyIntDigits | python/packages/celbridge_host/src/celbridge_host/named_pipe.py:45 | `int()` reads a plain run of ASCII digits as the number it denotes, and raises on more than 4300 digits |
| Text.PyIntNegatedDigits | python/packages/celbridge_host/src/celbridge_host/named_pipe.py:45 | `int()` reads a minus sign and a run of digits as the negated number, and raises on more than 4300 digits |
| Text.IntStringRoundTrip | python/packages/celbridge_host/src/celbridge_host/named_pipe.py:45-76 | `int(str(i)) == i` for every integer that `str` converts |
| Text.Strip | python/packages/celbridge_host/src/celbridge_host/named_pipe.py:45 | `strip()` keeps a contiguous middle of the string whose ends are not whitespace |
| Text.StripRemovesOnlySpaces | python/packages/celbridge_host/src/celbridge_host/celbridge_host.py:40-54 | everything `strip()` removes is whitespace |
| Text.JoinSplit | python/packages/celbridge_host/src/celbridge_host/named_pipe.py:43 | `sep.join(s.split(sep)) == s` |
| Text.SplitPiecesFree | python/packages/celbridge_host/src/celbridge_host/named_pipe.py:43 | no piece produced by `split` contains the separator |
| Utf8.DecodeEncode | python/packages/celbridge_host/src/celbridge_host/named_pipe.py:58-74 | `s.encode('utf-8').decode('utf-8') == s` |
| Utf8.EncodeLength | python/packages/celbridge_host/src/celbridge_host/named_pipe.py:74-75 | the byte count is at least the character count, and equal exactly for ASCII |
| JsonText.QuoteRoundTrip | python/packages/celbridge_host/src/celbridge_host/rpc_service.py:109-116 | `json.dumps` of a string reads back as that string, and is printable ASCII |
| JsonText.PlainPrefixEscape | python/packages/celbridge_host/src/celbridge_host/rpc_service.py:113 | `json.dumps` writes printable ASCII other than `"` and `\` unchanged, so a plain prefix comes out as it stands and the rest is escaped on its own |
| JsonText.QuotePlainPrefix | python/packages/celbridge_host/src/celbridge_host/rpc_service.py:113 | `json.dumps` of a message with a plain prefix is the prefix as it stands followed by the escaped rest, in double quotes |
| JsonText.ErrorResponseQuotesMessage | python/packages/celbridge_host/src/celbridge_host/rpc_service.py:109-116 | the fallback response holds the whole message `"Internal error: " + str(e)` as `json.dumps` encodes it, between the fixed head and tail |
| JsonText.ErrorResponseAscii | python/packages/celbridge_host/src/celbridge_host/rpc_service.py:109-116 | the fallback error response is printable ASCII whatever the exception said |
| JsonText.ErrorResponseRoundTrip | python/packages/celbridge_host/src/celbridge_host/rpc_service.py:109-116 | the fallback response's `message` member reads back as `"Internal error: "` followed by the exception's text |
| RpcService.ReplyTextRaised | python/packages/celbridge_host/src/celbridge_host/rpc_service.py:106-117 | the text written after a raised `dispatch` carries the internal-error message |
| RpcService.Session | python/packages/celbridge_host/src/celbridge_host/rpc_service.py:87-117 | a session never consumes more than the peer sent |
| RpcService.HostState.constructor | python/packages/celbridge_host/src/celbridge_host/rpc_service.py:20-24 | both globals start as `None` |
| RpcService.CelbridgeRpcService.constructor | python/packages/celbridge_host/src/celbridge_host/rpc_service.py:31-40 | a new service has its pipe server for the full pipe name, is not running, and has no thread |
| RpcService.CelbridgeRpcService.Start | python/packages/celbridge_host/src/celbridge_host/rpc_service.py:42-51 | on a running service it is a no-op; otherwise it sets `running` and creates and launches one thread (a failing launch raises after `running` is set) |
| RpcService.CelbridgeRpcService.Stop | python/packages/celbridge_host/src/celbridge_host/rpc_service.py:53-59 | clears `running` and nothing else, so calling it again changes nothing |
| RpcService.CelbridgeRpcService.Run | python/packages/celbridge_host/src/celbridge_host/rpc_service.py:61-72 | while running, every accepted peer, in order, is served its whole `Session` and then closed; when not running nothing happens |
| RpcService.CelbridgeRpcService.ServeNext | python/packages/celbridge_host/src/celbridge_host/rpc_service.py:65-72 | one accept: no peer leaves everything unchanged; a peer is served to the end of its session, closed, and the slot is cleared |
| RpcService.CelbridgeRpcService.HandleClient | python/packages/celbridge_host/src/celbridge_host/rpc_service.py:74-121 | the handler writes exactly the frames of `Session`'s replies and consumes exactly its bytes; the slot is `None` afterwards on every path |
| RpcService.CelbridgeRpcService.ServeRequest | python/packages/celbridge_host/src/celbridge_host/rpc_service.py:89-117 | one turn of the session loop is one step of `Session`: what it reads, writes and whether it goes on |
| RpcService.CelbridgeRpcService.Answer | python/packages/celbridge_host/src/celbridge_host/rpc_service.py:98-117 | a response whose write fails ends the session; a raised dispatch never does; the text written is the reply text |
| RpcService.InitializeRpcService | python/packages/celbridge_host/src/celbridge_host/rpc_service.py:124-149 | no pipe name, or a service already registered, changes nothing and gives `False`; otherwise a new running service is registered and the result says whether its thread started |
| RpcService.ShutdownRpcService | python/packages/celbridge_host/src/celbridge_host/rpc_service.py:152-160 | the registered service, if any, is stopped and the slot cleared; no other field changes |
| RpcService.ReplyOutcome | python/packages/celbridge_host/src/celbridge_host/rpc_service.py:215-228 | a result is returned only for an `Ok` parse of a non-empty reply; an empty or missing reply fails with a receive error |
| RpcService.CallCSharpMethod | python/packages/celbridge_host/src/celbridge_host/rpc_service.py:187-228 | without a connection nothing is written and the call fails; a failed write reads nothing; otherwise one request frame is written and the next frame is taken as the reply |
| RpcProperties.SessionAnswersAll | python/packages/celbridge_host/src/celbridge_host/rpc_service.py:87-104 | a peer that sends non-empty requests on an intact pipe gets one reply per request, in order, and all its bytes are read |
| RpcProperties.AnswersAt | python/packages/celbridge_host/src/celbridge_host/rpc_service.py:98-102 | the `i`-th text written is the reply to the `i`-th request |
| RpcProperties.FirstRequestAnswered | python/packages/celbridge_host/src/celbridge_host/rpc_service.py:89-104 | on an intact pipe the first request's reply is written, then the session goes on after its frame |
| RpcProperties.RaisedContinues | python/packages/celbridge_host/src/celbridge_host/rpc_service.py:106-117 | a raised dispatch writes the internal-error response and the session goes on with the next frame |
| RpcProperties.RaisedContinuesOnBrokenPipe | python/packages/celbridge_host/src/celbridge_host/rpc_service.py:106-117 | on a broken pipe a raised dispatch does not end the session either |
| RpcProperties.BrokenPipeWritesNothing | python/packages/celbridge_host/src/celbridge_host/rpc_service.py:102-117 | when every write fails, the session writes nothing |
| RpcProperties.ResponseOnBrokenPipeEnds | python/packages/celbridge_host/src/celbridge_host/rpc_service.py:102-104 | a response whose write fails ends the session right after its request's frame |
| RpcProperties.EmptyRequestEnds | python/packages/celbridge_host/src/celbridge_host/rpc_service.py:90-92 | a frame with an empty body ends the session without a reply |
| RpcProperties.CallReadsReply | python/packages/celbridge_host/src/celbridge_host/rpc_service.py:215-228 | on a non-empty reply frame the call returns the `Ok` result, raises `RpcError` with the remote message and code, or reports the unexpected type |
| RpcProperties.EmptyReplyFails | python/packages/celbridge_host/src/celbridge_host/rpc_service.py:216-217 | an empty reply frame fails as no response |
| RpcProperties.RpcErrorNamesMethod | python/packages/celbridge_host/src/celbridge_host/rpc_service.py:204-228 | every `RpcError` message names the method called |
| CelbridgeHost.KeptLines | python/packages/celbridge_host/src/celbridge_host/celbridge_host.py:43-52 | filtering never adds lines |
| CelbridgeHost.CleanErrorMessage | python/packages/celbridge_host/src/celbridge_host/celbridge_host.py:30-54 | the loop gives the stripped join of the kept lines of the stripped, split stderr |
| CelbridgeHost.KeptLinesMembers | python/packages/celbridge_host/src/celbridge_host/celbridge_host.py:43-52 | a line is kept exactly when it is a line of the input and not a usage, `Try`, `uv` progress, `Resolved` or `Prepared` line |
| CelbridgeHost.KeptLinesConcat | python/packages/celbridge_host/src/celbridge_host/celbridge_host.py:43-52 | filtering keeps the order of the lines |
| CelbridgeHost.NothingToDrop | python/packages/celbridge_host/src/celbridge_host/celbridge_host.py:40-54 | without noise lines the message is the stripped stderr |
| CelbridgeHost.StripStrip | python/packages/celbridge_host/src/celbridge_host/celbridge_host.py:40-54 | `strip()` is idempotent |
| CelbridgeHost.CliName | python/packages/celbridge_host/src/celbridge_host/celbridge_host.py:346-354 | the CLI name has the same length and no `_` |
| CelbridgeHost.OptionTokens | python/packages/celbridge_host/src/celbridge_host/celbridge_host.py:354-361 | `True` gives `--key`, `False` nothing, any other value `--key` and its `str` |
| CelbridgeHost.Strs | python/packages/celbridge_host/src/celbridge_host/celbridge_host.py:350 | each positional argument becomes its `str`, in place |
| CelbridgeHost.BuildCommandArgs | python/packages/celbridge_host/src/celbridge_host/celbridge_host.py:346-361 | the loops build exactly `CommandArgs` |
| CelbridgeHost.CommandArgsLayout | python/packages/celbridge_host/src/celbridge_host/celbridge_host.py:346-361 | the command in CLI style comes first, then each positional argument in its place, then the keyword tokens |
| CelbridgeHost.KeywordTokensConcat | python/packages/celbridge_host/src/celbridge_host/celbridge_host.py:353-361 | keyword arguments are translated one after the other, in order |
| CelbridgeHost.FalseFlagVanishes | python/packages/celbridge_host/src/celbridge_host/celbridge_host.py:355-358 | a keyword argument set to `False` leaves no trace |
| CelbridgeHost.ParamParts | python/packages/celbridge_host/src/celbridge_host/celbridge_host.py:240-250 | one part per parameter, in order |
| CelbridgeHost.ParamPartShape | python/packages/celbridge_host/src/celbridge_host/celbridge_host.py:246-250 | a parameter shows as its bare name exactly when required; otherwise as `name=default`, with a string default in double quotes |
| CelbridgeHost.FormatCommandHelp | python/packages/celbridge_host/src/celbridge_host/celbridge_host.py:220-260 | the method builds exactly `HelpText` |
| CelbridgeHost.HelpTextLayout | python/packages/celbridge_host/src/celbridge_host/celbridge_host.py:234-260 | the text is the usage line naming the command with `-` turned into `_`, followed by the help on its own line exactly when the help is non-empty |
| CelbridgeHost.FirstNamed | python/packages/celbridge_host/src/celbridge_host/celbridge_host.py:211-214 | the first command with the name, with none before it; `None` exactly when no command has it |
| CelbridgeHost.GetCommandHelp | python/packages/celbridge_host/src/celbridge_host/celbridge_host.py:194-217 | a failed run or a failed decode gives `None`; otherwise an entry is returned exactly when some command has the name, and it is the first such entry |
| CelbridgeHost.FailedCommandShowsItsHelp | python/packages/celbridge_host/src/celbridge_host/celbridge_host.py:367-377 | a failed command returns `None` after printing the cleaned error, then the help of the command under its CLI name when it is found; a command with an empty name shows no help |
| CelbridgeHost.SucceededCommandReturns | python/packages/celbridge_host/src/celbridge_host/celbridge_host.py:363-366 | a command that succeeds returns its decoded output and prints nothing |
| LoggingConfig.Upper | python/packages/celbridge_host/src/celbridge_host/logging_config.py:23 | upper-casing never shortens a text; sharp s and the Latin ligatures lengthen it |
| LoggingConfig.UpperIdempotent | python/packages/celbridge_host/src/celbridge_host/logging_config.py:23 | upper-casing twice gives the same as once, sharp s and ligatures included |
| LoggingConfig.UpperConcat | python/packages/celbridge_host/src/celbridge_host/logging_config.py:23 | upper-casing works character by character: the capital of a concatenation is the concatenation of the capitals |
| LoggingConfig.UpperIgnoresCase | python/packages/celbridge_host/src/celbridge_host/logging_config.py:23 | texts that differ only in the case of their ASCII letters have the same capital |
| LoggingConfig.UpperOfCapitals | python/packages/celbridge_host/src/celbridge_host/logging_config.py:23 | a text of capital ASCII letters and `_` is its own capital |
| LoggingConfig.EffectiveLevelName | python/packages/celbridge_host/src/celbridge_host/logging_config.py:23 | the name in force is in upper case (its own capital) and at least as long as the setting it came from |
| LoggingConfig.EnvironmentOverridesLevel | python/packages/celbridge_host/src/celbridge_host/logging_config.py:23 | a set `PYTHON_LOG_LEVEL` decides the name, whatever the argument |
| LoggingConfig.AsWrittenLevel | python/packages/celbridge_host/src/celbridge_host/logging_config.py:28-78 | as written, the configuration raises exactly when the name reaches a module attribute that is not a level |
| LoggingConfig.BasicFormatRaises | python/packages/celbridge_host/src/celbridge_host/logging_config.py:23-28 | `PYTHON_LOG_LEVEL=basic_format`, in any case, makes the configuration raise |
| LoggingConfig.StylesLigatureRaises | python/packages/celbridge_host/src/celbridge_host/logging_config.py:23-28 | `_` then the ligature for `st` then `yles` in any case upper-cases to `_STYLES`, so it makes the configuration raise too |
| LoggingConfig.NonLevelNamesRaise | python/packages/celbridge_host/src/celbridge_host/logging_config.py:23-28 | any spelling of `BASIC_FORMAT` or `_STYLES`, in the environment when set and else in the argument, makes the configuration as written raise |
| LoggingConfig.NumericLevel | python/packages/celbridge_host/src/celbridge_host/logging_config.py:27-28 | the level is always one of 0, 10, 20, 30, 40, 50: the named level, else INFO |
| LoggingConfig.LevelAgreesOffNonLevels | python/packages/celbridge_host/src/celbridge_host/logging_config.py:28 | the corrected level agrees with the code on every name that does not reach a non-level attribute |
| LoggingConfig.LevelNamesAnyCase | python/packages/celbridge_host/src/celbridge_host/logging_config.py:23-28 | any spelling of a level name, in upper or lower case ASCII letters, in the environment when set and else in the argument, gives that level, as written and as corrected |
| LoggingConfig.MaxLogFiles | python/packages/celbridge_host/src/celbridge_host/logging_config.py:25 | without `PYTHON_LOG_MAX_FILES` the argument is kept |
| LoggingConfig.MaxLogFilesFromEnvironment | python/packages/celbridge_host/src/celbridge_host/logging_config.py:25 | a count that `str` writes into the environment is read back as written |
| LoggingConfig.LogDirectory | python/packages/celbridge_host/src/celbridge_host/logging_config.py:24-42 | `PYTHON_LOG_DIR` overrides the argument; file logging needs a non-empty directory |
| LoggingConfig.SliceTo | python/packages/celbridge_host/src/celbridge_host/logging_config.py:50 | a Python `[:k]` slice is a prefix, of length `k` clamped to the list for non-negative `k` |
| LoggingConfig.FilesToDeleteCount | python/packages/celbridge_host/src/celbridge_host/logging_config.py:46-50 | the deleted files are a prefix; with fewer logs than the count nothing goes; with a count of at least 1, `max - 1` logs remain (or all, if fewer); a count below 1 deletes every log |
| LoggingConfig.OldestAreDeleted | python/packages/celbridge_host/src/celbridge_host/logging_config.py:47-50 | on the sorted listing no kept file sorts before a deleted one |
| LoggingConfig.LogFolder.constructor | python/packages/celbridge_host/src/celbridge_host/logging_config.py:43-47 | the folder holds the given files |
| LoggingConfig.LogFolder.Remove | python/packages/celbridge_host/src/celbridge_host/logging_config.py:53-54 | `os.remove` raises exactly on a missing or in-use file, and otherwise removes only that file |
| LoggingConfig.RemoveOldLogs | python/packages/celbridge_host/src/celbridge_host/logging_config.py:48-55 | every chosen file that can be removed is gone, whatever failed before it, and nothing else changes |
| LoggingConfig.Pad | python/packages/celbridge_host/src/celbridge_host/logging_config.py:58 | a zero-padded field has exactly its width |
| LoggingConfig.Stamp | python/packages/celbridge_host/src/celbridge_host/logging_config.py:58 | the time stamp `%Y%m%d_%H%M%S` has 15 characters |
| LoggingConfig.PadOrder | python/packages/celbridge_host/src/celbridge_host/logging_config.py:58 | zero-padded numbers of one width sort, and are equal, as the numbers are |
| LoggingConfig.StampOrder | python/packages/celbridge_host/src/celbridge_host/logging_config.py:58 | time stamps sort as the times they stand for, and differ when the times do |
| LoggingConfig.LogFileNameOrder | python/packages/celbridge_host/src/celbridge_host/logging_config.py:47-59 | log file names sort in the order the files were opened, and are distinct for distinct seconds |

## Left out

- Win32: `CreateNamedPipe`, `ConnectNamedPipe`, `ReadFile`, `WriteFile` and `CloseHandle` are foreign calls. A peer is the fixed bytes it sends, the error `ReadFile` reports at their end, and whether writes succeed. Its bytes do not depend on what the host writes.
- NamedPipe.ReadFile: one read returns as many of the requested bytes as have been sent. A real pipe may return fewer; `read_message` does not loop on the body, so a body split across writes is read short there.
- The `str` branch of `_read_bytes` (named_pipe.py:100-101) is not modelled, because `ReadFile` on a byte-mode pipe returns bytes.
- The logging calls of all four files are not modelled.
- Threads and locks are not modelled: the daemon thread, `_service_lock`, `_pipe_handler_lock`, and the interleaving of `stop` or an outbound call with a running session. The model is one sequential state.
- RpcService.CelbridgeRpcService.Run: `running` stays constant during the run, and the accept outcomes are a finite list. A `stop` from another thread is not interleaved.
- RpcService.CallCSharpMethod: the next frame on the pipe is taken as the reply, with no request-id check, as the code does. The model does not claim any response correlation.
- `jsonrpcserver.dispatch`, `jsonrpcclient.request_json`/`parse_json` and `json.loads` are library code and appear as function parameters.
- `json.dumps` is written out only for the one object the host builds itself, the internal error response.
- `_run_cli_command`, `_run_cli_command_uv` and `_run_cli_command_python` are left out: subprocess, environment variables and `uv`. A run of the CLI is a parameter.
- CelbridgeHost.CommandWrapper: `parse` stands for `json.loads` on the output of a successful command and is total. A `JSONDecodeError` on malformed output is not modelled.
- `CelbridgeHost.help()` only prints and is not modelled. `__getattr__`'s setting of `__name__` and `__doc__` is not modelled either.
- The `print` calls of `command_wrapper` are modelled as the list of texts printed.
- Logging plumbing is left out: `mkdir`, `glob`, `FileHandler`, `Formatter`, `basicConfig`, the `asyncio` logger level and the `CELBRIDGE_LOG_FILE` message. The sorted listing of existing logs is a parameter.
- LoggingConfig.UpperChars: a non-ASCII character whose capital is not ASCII is kept as it is. Python upper-cases it to another non-ASCII text. Every attribute name `getattr` can find is ASCII, so the name finds nothing either way.
- LoggingConfig.LogFileName: years before 1000 are not modelled, because `strftime('%Y')` pads them differently on different platforms.
- LoggingConfig.LogFileNameOrder: it compares bare names. The listing holds full paths with one common directory prefix, which compare the same way.
- Unicode digits, which Python's `int()` also accepts, are not modelled. Only ASCII digits occur in the lengths written.
- The digit limit of `int()` and `str()` is CPython's default of 4300. A limit changed through `sys.set_int_max_str_digits` or `PYTHONINTMAXSTRDIGITS` is not modelled.
- Text.IntString: `str()` raises `ValueError` on an integer of more than 4300 digits, but `IntString` still gives its digits. Every lemma that reads its output back requires `FitsStr`.
- NamedPipe.NamedPipeHandler.WriteMessage: for a body of 10^4300 bytes or more, the f-string of the header raises, and `write_message` returns `False`. The model writes the frame instead. The round-trip lemmas require `LengthFits`, so they make no claim about such a body.

Where the intended design and the code differ, the model follows the code:
- an empty body is never read back, so `write_message("")` does not round-trip;
- a framing error and a disconnect both read as `None`;
- a response whose write fails ends the session, while a failed write of the error response does not.

## Findings

| source | as written | input that shows it | evidently intended | confidence | as-written member | corrected member |
|---|---|---|---|---|---|---|
| python/packages/celbridge_host/src/celbridge_host/logging_config.py:28 | `getattr(logging, log_level, logging.INFO)` returns any attribute of `logging` with the upper-cased name, including ones that are not levels (`BASIC_FORMAT`, `_STYLES`). The handler's and `basicConfig`'s `setLevel` then raise, so `configure_logging` fails | `PYTHON_LOG_LEVEL=basic_format`, or `_` followed by the ligature U+FB06 and `yles` | any name that is not a level falls back to INFO | medium, not executed | LoggingConfig.AsWrittenLevel | LoggingConfig.NumericLevel |
