/** The launcher's command-line parser: a six-state machine that folds the
    process arguments (program name first) into an ordered list of commands,
    or stops with an error message. */
module ArgsParser {
  import opened Wrappers
  import opened Strings

  /** One remote command: an optional target window, an optional name (always
      present once the command reaches the result) and its `--flag -> value` map. */
  datatype Command = Command(
    window: Option<string>,
    commandName: Option<string>,
    commandParameters: map<string, string>)

  /** The parsed command line: the commands in the order they were given. */
  datatype CommandLineArguments = CommandLineArguments(commands: seq<Command>)

  /** What `Parse` hands back: Go returns the commands gathered so far even when it
      also returns an error message. */
  datatype ParseResult = ParseResult(parsed: CommandLineArguments, error: Option<string>)

  /** The position of the parser: which kind of token it expects next. */
  datatype ParseState = ProgramName | Flag | WindowValue | CommandName | CommandFlag | CommandValue

  /** The whole mutable state of the Go loop: the current state, the last flag name
      seen inside a command block, the command being built and the finished commands. */
  datatype Machine = Machine(
    state: ParseState,
    commandFlag: string,
    command: Command,
    commands: seq<Command>)

  /** The outcome of consuming tokens: keep going, or an early return with the
      finished commands and an error message. */
  datatype Step = Next(machine: Machine) | Halt(commands: seq<Command>, message: string)

  /** A fresh command: no window, no name, no parameters. */
  function MakeCommand(): (c: Command)
    ensures c.window == None && c.commandName == None && |c.commandParameters| == 0
  {
    Command(None, None, map[])
  }

  /** A parameter key as the parser admits it: starts with `--` and is not `--` itself. */
  predicate IsFlagName(item: string)
  {
    HasPrefix(item, "--") && item != "--"
  }

  /** The machine before any token has been read. */
  function InitialMachine(): Machine
  {
    Machine(ProgramName, "", MakeCommand(), [])
  }

  function UnknownParameterMessage(item: string): string
  {
    "Unknown command line parameter '" + item + "'."
  }

  function BadCommandParameterMessage(item: string): string
  {
    "Parameters to commands must start with '--'. Found: '" + item + "'."
  }

  /** The message for a flag left without a value (the typo is the program's own). */
  function MissingValueMessage(commandFlag: string): string
  {
    "Command parameter '" + commandFlag + "' does have a valkue."
  }

  const MissingWindowMessage: string := "No value for window option was given."

  /** One iteration of the parsing loop: consume `item` in the machine's current state. */
  function Transition(m: Machine, item: string): Step
  {
    match m.state
    case ProgramName =>
      Next(m.(state := Flag))
    case Flag =>
      if item == "-w" || item == "--window" then Next(m.(state := WindowValue))
      else if item == "-c" || item == "--command" then Next(m.(state := CommandName))
      else Halt(m.commands, UnknownParameterMessage(item))
    case WindowValue =>
      Next(m.(command := m.command.(window := Some(item)), state := Flag))
    case CommandName =>
      Next(m.(command := m.command.(commandName := Some(item)), state := CommandFlag))
    case CommandFlag =>
      if item == "--" then
        if m.command.commandName.Some? then
          Next(m.(commands := m.commands + [m.command], command := MakeCommand(), state := Flag))
        else
          Next(m.(state := Flag))
      else if HasPrefix(item, "--") then
        Next(m.(commandFlag := item, state := CommandValue))
      else
        Halt(m.commands, BadCommandParameterMessage(item))
    case CommandValue =>
      var parameters := m.command.commandParameters[m.commandFlag := item];
      Next(m.(command := m.command.(commandParameters := parameters), state := CommandFlag))
  }

  /** The parsing loop: consume `items` from left to right, stopping at the first error. */
  function Feed(m: Machine, items: seq<string>): Step
    decreases |items|
  {
    if |items| == 0 then Next(m)
    else
      match Transition(m, items[0])
      case Halt(commands, message) => Halt(commands, message)
      case Next(m') => Feed(m', items[1..])
  }

  /** End-of-input handling: keep a named open command, then report a flag or a
      window option that is still waiting for its value. */
  function Finish(m: Machine): ParseResult
  {
    var commands := if m.command.commandName.Some? then m.commands + [m.command] else m.commands;
    var parsed := CommandLineArguments(commands);
    if m.state == CommandValue then ParseResult(parsed, Some(MissingValueMessage(m.commandFlag)))
    else if m.state == WindowValue then ParseResult(parsed, Some(MissingWindowMessage))
    else ParseResult(parsed, None)
  }

  /** Go's `Parse(&args)`: the arguments include the program name as element 0.
      Whatever the outcome, every returned command is named and carries only
      `--flag` keys, and no more commands come back than there were command blocks
      (`-c`/`--command` tokens) or `--` separators plus one. */
  function Parse(args: seq<string>): (r: ParseResult)
    ensures forall i :: 0 <= i < |r.parsed.commands| ==> WellFormed(r.parsed.commands[i])
    ensures |r.parsed.commands| <= CountTokens(args, {"--"}) + 1
    ensures |r.parsed.commands| <= CountTokens(args, {"-c", "--command"})
  {
    FeedPreserves(InitialMachine(), args);
    match Feed(InitialMachine(), args)
    case Halt(commands, message) => ParseResult(CommandLineArguments(commands), Some(message))
    case Next(m) => Finish(m)
  }

  /** Number of items that are one of `tokens`. */
  function CountTokens(items: seq<string>, tokens: set<string>): nat
  {
    if |items| == 0 then 0 else (if items[0] in tokens then 1 else 0) + CountTokens(items[1..], tokens)
  }

  /** A command as it may appear in a parse result: named, with `--flag` keys only. */
  predicate WellFormed(c: Command)
  {
    c.commandName.Some? && forall k :: k in c.commandParameters ==> IsFlagName(k)
  }

  /** The loop invariant of the parser: finished commands are well formed, the open
      command is named exactly in the two states inside a command block, an unnamed
      open command has no parameters yet, and a pending flag is a proper flag name. */
  predicate Valid(m: Machine)
  {
    && (forall i :: 0 <= i < |m.commands| ==> WellFormed(m.commands[i]))
    && (forall k :: k in m.command.commandParameters ==> IsFlagName(k))
    && (m.command.commandName.Some? <==> (m.state == CommandFlag || m.state == CommandValue))
    && (m.command.commandName.None? ==> m.command.commandParameters == map[])
    && (m.state == CommandValue ==> IsFlagName(m.commandFlag))
  }

  /** The finished commands an outcome carries. */
  function StepCommands(s: Step): seq<Command>
  {
    match s
    case Next(m) => m.commands
    case Halt(commands, _) => commands
  }

  /** 1 while a command block is open (its `-c` has been read), else 0. */
  function Pending(m: Machine): nat
  {
    if m.command.commandName.Some? || m.state == CommandName then 1 else 0
  }

  /** Consuming tokens keeps the invariant, only appends commands, and appends at
      most one command per `--` separator and per command-block token. */
  lemma {:induction false} FeedPreserves(m: Machine, items: seq<string>)
    requires Valid(m)
    ensures Feed(m, items).Next? ==> Valid(Feed(m, items).machine)
    ensures var cs := StepCommands(Feed(m, items));
      forall i :: 0 <= i < |cs| ==> WellFormed(cs[i])
    ensures m.commands <= StepCommands(Feed(m, items))
    ensures |StepCommands(Feed(m, items))| <= |m.commands| + CountTokens(items, {"--"})
    ensures Feed(m, items).Next? ==>
      |Feed(m, items).machine.commands| + Pending(Feed(m, items).machine)
        <= |m.commands| + Pending(m) + CountTokens(items, {"-c", "--command"})
    ensures Feed(m, items).Halt? ==>
      |Feed(m, items).commands| <= |m.commands| + Pending(m) + CountTokens(items, {"-c", "--command"})
    decreases |items|
  {
    if |items| > 0 {
      var t := Transition(m, items[0]);
      if t.Next? {
        var m' := t.machine;
        assert Valid(m') by {
          if m.state == CommandFlag && items[0] == "--" && m.command.commandName.Some? {
            assert WellFormed(m.command);
          }
        }
        FeedPreserves(m', items[1..]);
      }
    }
  }
}
