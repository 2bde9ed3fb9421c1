/** The string logic of `celbridge_host.py`, the proxy that turns
    `cel.some_command(...)` into a run of the `celbridge` CLI: the filter that
    cleans the CLI's stderr into the message of a `CelbridgeCommandError`,
    the translation of a Python call into CLI arguments, the usage line shown
    after a failed command, and the first-match lookup of a command's help.

    Running the CLI (`_run_cli_command`) and `json.loads` are parameters:
    `run` gives what a run of the CLI with given arguments ends in, `parse`
    the value decoded from its output, and `parseHelp` the command list
    decoded from the output of `help`. */
module CelbridgeHost {
  import opened Text

  /** A line of CLI stderr that is not shown: a usage or "Try" hint, or a
      progress line of `uv`. */
  predicate IsNoiseLine(line: string) {
    || StartsWith(line, "Usage:") || StartsWith(line, "Try ")
    || (Contains(line, "Installed") && Contains(line, "packages in"))
    || StartsWith(line, "Resolved ") || StartsWith(line, "Prepared ")
  }

  /** The lines of `lines` that are not noise, in their order. */
  function KeptLines(lines: seq<string>): (r: seq<string>)
    ensures |r| <= |lines|
  {
    if |lines| == 0 then []
    else
      var last := lines[|lines| - 1];
      KeptLines(lines[..|lines| - 1]) + (if IsNoiseLine(last) then [] else [last])
  }

  /** The message `_clean_error_message` makes of `stderr`. */
  function CleanedText(stderr: string): string {
    Strip(Join(KeptLines(Split(Strip(stderr), "\n")), "\n"))
  }

  /** `_clean_error_message`: strips `stderr`, splits it into lines, keeps
      the lines that are not noise, joins them and strips the result. */
  method CleanErrorMessage(stderr: string) returns (message: string)
    ensures message == CleanedText(stderr)
  {
    var lines := Split(Strip(stderr), "\n");
    var cleaned: seq<string> := [];
    var i := 0;
    while i < |lines|
      invariant 0 <= i <= |lines|
      invariant cleaned == KeptLines(lines[..i])
    {
      var line := lines[i];
      assert lines[..i + 1][..i] == lines[..i];
      i := i + 1;
      if StartsWith(line, "Usage:") || StartsWith(line, "Try ") {
        continue;
      }
      if Contains(line, "Installed") && Contains(line, "packages in") {
        continue;
      }
      if StartsWith(line, "Resolved ") || StartsWith(line, "Prepared ") {
        continue;
      }
      cleaned := cleaned + [line];
    }
    assert lines[..i] == lines;
    message := Strip(Join(cleaned, "\n"));
  }

  /** A line is kept exactly when it is one of the lines and not noise. */
  lemma {:induction false} KeptLinesMembers(lines: seq<string>, line: string)
    ensures line in KeptLines(lines) <==> line in lines && !IsNoiseLine(line)
    decreases |lines|
  {
    if |lines| > 0 {
      var init := lines[..|lines| - 1];
      KeptLinesMembers(init, line);
      assert lines == init + [lines[|lines| - 1]];
    }
  }

  /** Filtering keeps the order: the kept lines of two blocks are the kept
      lines of the first followed by those of the second. */
  lemma {:induction false} KeptLinesConcat(a: seq<string>, b: seq<string>)
    ensures KeptLines(a + b) == KeptLines(a) + KeptLines(b)
    decreases |b|
  {
    if |b| == 0 {
      assert a + b == a;
    } else {
      var init := b[..|b| - 1];
      assert (a + b)[..|a + b| - 1] == a + init;
      KeptLinesConcat(a, init);
    }
  }

  /** `strip` is idempotent. */
  lemma StripStrip(s: string)
    ensures Strip(Strip(s)) == Strip(s)
  {
    var r := Strip(s);
    if |r| > 0 {
      StripUnspaced(r);
    }
  }

  /** Without noise the message is `stderr` stripped. */
  lemma {:induction false} NothingToDrop(stderr: string)
    requires forall line :: line in Split(Strip(stderr), "\n") ==> !IsNoiseLine(line)
    ensures CleanedText(stderr) == Strip(stderr)
  {
    var lines := Split(Strip(stderr), "\n");
    AllKept(lines);
    JoinSplit(Strip(stderr), "\n");
    StripStrip(stderr);
  }

  lemma {:induction false} AllKept(lines: seq<string>)
    requires forall line :: line in lines ==> !IsNoiseLine(line)
    ensures KeptLines(lines) == lines
    decreases |lines|
  {
    if |lines| > 0 {
      var init := lines[..|lines| - 1];
      AllKept(init);
      assert lines == init + [lines[|lines| - 1]];
    }
  }

  /** `CelbridgeCommandError(message, command)`. */
  datatype CommandError = CommandError(message: string, command: Option<string>)

  /** What `_run_cli_command` raises when the CLI run with `args` exits
      with an error and writes `stderr`: the cleaned message, and the first
      argument as the command whose help is shown. */
  function FailureError(args: seq<string>, stderr: string): (e: CommandError)
    ensures e.message == CleanedText(stderr)
    ensures e.command.Some? <==> |args| > 0
    ensures e.command.Some? ==> e.command.value == args[0]
  {
    CommandError(CleanedText(stderr), if |args| > 0 then Some(args[0]) else None)
  }

  /** An argument value of a Python call: a `bool`, or any other value
      given by its `str`. */
  datatype Value = Flag(b: bool) | Other(text: string)

  /** `str(value)`. */
  function Str(v: Value): string {
    match v
    case Flag(b) => if b then "True" else "False"
    case Other(text) => text
  }

  /** A Python name in CLI style: every `_` becomes `-`. */
  function CliName(name: string): (r: string)
    ensures |r| == |name| && '_' !in r
  {
    ReplaceCharRemoves(name, '_', '-');
    ReplaceChar(name, '_', '-')
  }

  /** The CLI tokens of the keyword argument `key=value`. */
  function OptionTokens(key: string, value: Value): (r: seq<string>)
    ensures |r| == match value case Flag(b) => (if b then 1 else 0) case Other(_) => 2
    ensures |r| > 0 ==> r[0] == "--" + CliName(key)
    ensures value.Other? ==> r[1] == value.text
  {
    match value
    case Flag(b) => if b then ["--" + CliName(key)] else []
    case Other(text) => ["--" + CliName(key), text]
  }

  /** The tokens of the keyword arguments, in their order. */
  function KeywordTokens(kwargs: seq<(string, Value)>): seq<string> {
    if |kwargs| == 0 then []
    else
      var (key, value) := kwargs[|kwargs| - 1];
      KeywordTokens(kwargs[..|kwargs| - 1]) + OptionTokens(key, value)
  }

  /** The positional arguments as strings. */
  function Strs(args: seq<Value>): (r: seq<string>)
    ensures |r| == |args|
    ensures forall i :: 0 <= i < |args| ==> r[i] == Str(args[i])
  {
    if |args| == 0 then [] else Strs(args[..|args| - 1]) + [Str(args[|args| - 1])]
  }

  /** The arguments `cel.<command>(*args, **kwargs)` runs the CLI with. */
  function CommandArgs(command: string, args: seq<Value>, kwargs: seq<(string, Value)>): seq<string> {
    [CliName(command)] + Strs(args) + KeywordTokens(kwargs)
  }

  /** The argument list `command_wrapper` builds: the command in CLI
      style, the positional arguments, then the keyword arguments. */
  method BuildCommandArgs(command: string, args: seq<Value>, kwargs: seq<(string, Value)>)
    returns (cmdArgs: seq<string>)
    ensures cmdArgs == CommandArgs(command, args, kwargs)
  {
    var cliCommand := ReplaceChar(command, '_', '-');
    cmdArgs := [cliCommand];
    for i := 0 to |args|
      invariant cmdArgs == [CliName(command)] + Strs(args[..i])
    {
      assert args[..i + 1][..i] == args[..i];
      cmdArgs := cmdArgs + [Str(args[i])];
    }
    assert args[..|args|] == args;
    ghost var positional := cmdArgs;
    for i := 0 to |kwargs|
      invariant cmdArgs == positional + KeywordTokens(kwargs[..i])
    {
      assert kwargs[..i + 1][..i] == kwargs[..i];
      var (key, value) := kwargs[i];
      var optionName := ReplaceChar(key, '_', '-');
      match value {
        case Flag(b) =>
          if b {
            cmdArgs := cmdArgs + ["--" + optionName];
          }
        case Other(text) =>
          cmdArgs := cmdArgs + ["--" + optionName, text];
      }
    }
    assert kwargs[..|kwargs|] == kwargs;
  }

  /** The argument list starts with the command in CLI style, then has
      each positional argument as a string in its place, then the tokens of
      the keyword arguments. */
  lemma CommandArgsLayout(command: string, args: seq<Value>, kwargs: seq<(string, Value)>)
    ensures var cmdArgs := CommandArgs(command, args, kwargs);
            && |cmdArgs| >= 1 + |args|
            && cmdArgs[0] == CliName(command) && '_' !in cmdArgs[0]
            && (forall i :: 0 <= i < |args| ==> cmdArgs[1 + i] == Str(args[i]))
            && cmdArgs[1 + |args|..] == KeywordTokens(kwargs)
  {
  }

  /** Keyword arguments are translated one after the other, in order. */
  lemma {:induction false} KeywordTokensConcat(a: seq<(string, Value)>, b: seq<(string, Value)>)
    ensures KeywordTokens(a + b) == KeywordTokens(a) + KeywordTokens(b)
    decreases |b|
  {
    if |b| == 0 {
      assert a + b == a;
    } else {
      var init := b[..|b| - 1];
      assert (a + b)[..|a + b| - 1] == a + init;
      KeywordTokensConcat(a, init);
    }
  }

  /** A keyword argument set to `False` adds nothing. */
  lemma FalseFlagVanishes(a: seq<(string, Value)>, key: string, b: seq<(string, Value)>)
    ensures KeywordTokens(a + [(key, Flag(false))] + b) == KeywordTokens(a + b)
  {
    KeywordTokensConcat(a + [(key, Flag(false))], b);
    KeywordTokensConcat(a, [(key, Flag(false))]);
    KeywordTokensConcat(a, b);
    assert [(key, Flag(false))][..0] == [];
  }

  /** A parameter's default: a string, or another value given by its `str`
      (`"None"` when there is none). */
  datatype Default = StringDefault(s: string) | OtherDefault(text: string)

  /** One entry of a command's `parameters` in the help data. */
  datatype Param = Param(name: string, required: bool, default: Default)

  /** One entry of `commands` in the help data; `name` is `None` when the
      entry has no name. */
  datatype CommandHelp = CommandHelp(name: Option<string>, help: string, parameters: seq<Param>)

  /** How a parameter is shown in the usage line. */
  function ParamPart(p: Param): string {
    if p.required then p.name
    else
      var defaultText := match p.default
        case StringDefault(s) => "\"" + s + "\""
        case OtherDefault(text) => text;
      p.name + "=" + defaultText
  }

  function ParamParts(params: seq<Param>): (r: seq<string>)
    ensures |r| == |params|
    ensures forall i :: 0 <= i < |params| ==> r[i] == ParamPart(params[i])
  {
    if |params| == 0 then [] else ParamParts(params[..|params| - 1]) + [ParamPart(params[|params| - 1])]
  }

  /** The usage line of the command `name`: the Python-style call with its
      parameters, after a blank line. */
  function UsageLine(name: string, params: seq<Param>): string {
    "\nUsage: cel." + ReplaceChar(name, '-', '_') + "(" + Join(ParamParts(params), ", ") + ")"
  }

  /** The text `_format_command_help` makes of a command's help entry. */
  function HelpText(cmdHelp: CommandHelp): string {
    var name := if cmdHelp.name.Some? then cmdHelp.name.value else "";
    UsageLine(name, cmdHelp.parameters) + (if cmdHelp.help != "" then "\n" + cmdHelp.help else "")
  }

  /** `_format_command_help`: builds the usage line parameter by parameter
      and adds the help text as a line of its own when there is one. */
  method FormatCommandHelp(cmdHelp: CommandHelp) returns (text: string)
    ensures text == HelpText(cmdHelp)
  {
    var name := if cmdHelp.name.Some? then cmdHelp.name.value else "";
    var helpText := cmdHelp.help;
    var parameters := cmdHelp.parameters;
    var head := "\nUsage: cel." + ReplaceChar(name, '-', '_') + "(";
    var paramParts: seq<string> := [];
    for i := 0 to |parameters|
      invariant paramParts == ParamParts(parameters[..i])
    {
      assert parameters[..i + 1][..i] == parameters[..i];
      var param := parameters[i];
      if param.required {
        paramParts := paramParts + [param.name];
      } else {
        var defaultText := match param.default
          case StringDefault(s) => "\"" + s + "\""
          case OtherDefault(t) => t;
        paramParts := paramParts + [param.name + "=" + defaultText];
      }
    }
    assert parameters[..|parameters|] == parameters;
    if |paramParts| > 0 {
      head := head + Join(paramParts, ", ");
    } else {
      assert head + Join(paramParts, ", ") == head;
    }
    head := head + ")";
    assert head == UsageLine(name, parameters);
    var lines := [head];
    if helpText != "" {
      lines := lines + [helpText];
      assert lines[1..] == [helpText];
      assert Join(lines[1..], "\n") == helpText;
    } else {
      assert head + "" == head;
    }
    text := Join(lines, "\n");
    assert text == head + (if helpText != "" then "\n" + helpText else "");
  }

  /** A parameter shows as its bare name exactly when it is required; an
      optional one shows as `name=default`, a string default in quotes. */
  lemma ParamPartShape(p: Param)
    ensures ParamPart(p) == p.name <==> p.required
    ensures !p.required ==> StartsWith(ParamPart(p), p.name + "=")
    ensures !p.required && p.default.StringDefault? ==>
              ParamPart(p)[|p.name| + 1..] == "\"" + p.default.s + "\""
  {
    if !p.required {
      assert |ParamPart(p)| > |p.name|;
      assert ParamPart(p)[..|p.name + "="|] == p.name + "=";
    }
  }

  /** The help text is the usage line, naming the command in Python style,
      followed by the help as a line of its own when there is one. */
  lemma HelpTextLayout(cmdHelp: CommandHelp)
    ensures var name := if cmdHelp.name.Some? then cmdHelp.name.value else "";
            var usage := UsageLine(name, cmdHelp.parameters);
            && StartsWith(HelpText(cmdHelp), usage)
            && (cmdHelp.help == "" <==> HelpText(cmdHelp) == usage)
            && (cmdHelp.help != "" ==> HelpText(cmdHelp)[|usage|..] == "\n" + cmdHelp.help)
            && '-' !in ReplaceChar(name, '-', '_')
  {
    var name := if cmdHelp.name.Some? then cmdHelp.name.value else "";
    var usage := UsageLine(name, cmdHelp.parameters);
    ReplaceCharRemoves(name, '-', '_');
    assert HelpText(cmdHelp)[..|usage|] == usage;
  }

  /** The position of the first command named `name`, if any. */
  function FirstNamed(commands: seq<CommandHelp>, name: string): (r: Option<nat>)
    ensures r.Some? ==> r.value < |commands| && commands[r.value].name == Some(name)
    ensures r.Some? ==> forall j :: 0 <= j < r.value ==> commands[j].name != Some(name)
    ensures r.None? <==> forall j :: 0 <= j < |commands| ==> commands[j].name != Some(name)
  {
    if |commands| == 0 then None
    else if commands[0].name == Some(name) then Some(0)
    else match FirstNamed(commands[1..], name)
      case None => None
      case Some(i) => Some(i + 1)
  }

  /** What running the CLI ends in: its output, an error exit with its
      stderr, or a `RuntimeError` (no `uv`, no interpreter, a missing
      environment variable) with its message. */
  datatype CliResult = Output(stdout: string) | ErrorExit(stderr: string) | RuntimeFailure(text: string)

  /** `_get_command_help`: runs `help`, decodes the command list and takes
      the first entry named `commandName`; any failure gives `None`. */
  function GetCommandHelp(run: seq<string> -> CliResult, parseHelp: string -> Option<seq<CommandHelp>>,
                          commandName: string): (r: Option<CommandHelp>)
    ensures !run(["help"]).Output? ==> r.None?
    ensures run(["help"]).Output? && parseHelp(run(["help"]).stdout).None? ==> r.None?
    ensures run(["help"]).Output? && parseHelp(run(["help"]).stdout).Some? ==>
              var commands := parseHelp(run(["help"]).stdout).value;
              && (r.Some? <==> exists j :: 0 <= j < |commands| && commands[j].name == Some(commandName))
              && (r.Some? ==> exists i :: 0 <= i < |commands| && r.value == commands[i]
                                          && forall j :: 0 <= j < i ==> commands[j].name != Some(commandName))
    ensures r.Some? ==> r.value.name == Some(commandName)
  {
    var output := run(["help"]);
    if !output.Output? then None
    else
      var commands := parseHelp(output.stdout);
      if commands.None? then None
      else
        var i := FirstNamed(commands.value, commandName);
        if i.Some? then Some(commands.value[i.value]) else None
  }

  /** How a proxied call ends: a value (`None` after a failed command) and
      what it printed, or a `RuntimeError` that propagates. */
  datatype CallResult<J> = Returned(value: Option<J>, printed: seq<string>) | Propagated(text: string)

  /** `command_wrapper`: runs the CLI with the translated arguments and
      decodes its output; on an error exit it prints the cleaned message and,
      when the command's help can be found, its help text, and returns
      `None`. An empty command name is false in Python, so no help is
      looked up for it. */
  function CommandWrapper<J>(command: string, args: seq<Value>, kwargs: seq<(string, Value)>,
                             run: seq<string> -> CliResult, parse: string -> J,
                             parseHelp: string -> Option<seq<CommandHelp>>): CallResult<J>
  {
    var cmdArgs := CommandArgs(command, args, kwargs);
    match run(cmdArgs)
    case Output(stdout) => Returned(Some(parse(stdout)), [])
    case RuntimeFailure(text) => Propagated(text)
    case ErrorExit(stderr) =>
      var e := FailureError(cmdArgs, stderr);
      var help := if e.command.Some? && e.command.value != "" then GetCommandHelp(run, parseHelp, e.command.value) else None;
      Returned(None, [e.message] + (if help.Some? then [HelpText(help.value)] else []))
  }

  /** A failed command prints its cleaned stderr, then the help of the
      command that was called, looked up under its CLI name; a command with
      an empty name prints no help. */
  lemma FailedCommandShowsItsHelp<J>(command: string, args: seq<Value>, kwargs: seq<(string, Value)>,
                                     run: seq<string> -> CliResult, parse: string -> J,
                                     parseHelp: string -> Option<seq<CommandHelp>>)
    requires run(CommandArgs(command, args, kwargs)).ErrorExit?
    ensures var outcome := CommandWrapper(command, args, kwargs, run, parse, parseHelp);
            var help := if command != "" then GetCommandHelp(run, parseHelp, CliName(command)) else None;
            && outcome.Returned? && outcome.value.None?
            && outcome.printed[0] == CleanedText(run(CommandArgs(command, args, kwargs)).stderr)
            && outcome.printed == [outcome.printed[0]] + (if help.Some? then [HelpText(help.value)] else [])
  {
  }

  /** A command that succeeds returns its decoded output and prints nothing. */
  lemma SucceededCommandReturns<J>(command: string, args: seq<Value>, kwargs: seq<(string, Value)>,
                                   run: seq<string> -> CliResult, parse: string -> J,
                                   parseHelp: string -> Option<seq<CommandHelp>>)
    requires run(CommandArgs(command, args, kwargs)).Output?
    ensures CommandWrapper(command, args, kwargs, run, parse, parseHelp)
            == Returned(Some(parse(run(CommandArgs(command, args, kwargs)).stdout)), [])
  {
  }
}
