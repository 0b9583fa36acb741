/** Properties of the command-line parser: how the program name, errors, windows,
    repeated flags and end of input are handled, and a round trip through a
    rendering of commands back into command-line tokens. */
module ArgsParserProperties {
  import opened Wrappers
  import opened Strings
  import opened ArgsParser

  /** Consuming `a + b` is consuming `a`, then (unless it stopped) consuming `b`. */
  lemma {:induction false} FeedAppend(m: Machine, a: seq<string>, b: seq<string>)
    ensures Feed(m, a + b) == (if Feed(m, a).Halt? then Feed(m, a) else Feed(Feed(m, a).machine, b))
    decreases |a|
  {
    if |a| == 0 {
      assert a + b == b;
    } else {
      assert (a + b)[0] == a[0];
      assert (a + b)[1..] == a[1..] + b;
      var t := Transition(m, a[0]);
      if t.Next? {
        FeedAppend(t.machine, a[1..], b);
      }
    }
  }

  /** Consuming `[t] + rest` is one transition followed by consuming `rest`. */
  lemma FeedCons(m: Machine, t: string, rest: seq<string>)
    ensures Feed(m, [t] + rest)
      == (if Transition(m, t).Halt? then Transition(m, t) else Feed(Transition(m, t).machine, rest))
  {
    assert ([t] + rest)[0] == t;
    assert ([t] + rest)[1..] == rest;
  }

  /** The parse result for the outcome of the parsing loop. */
  function ParseOutcome(s: Step): ParseResult
  {
    if s.Halt? then ParseResult(CommandLineArguments(s.commands), Some(s.message)) else Finish(s.machine)
  }

  /** The machine after the program name: top level, nothing built yet. */
  function AfterProgramName(): Machine
  {
    Machine(Flag, "", MakeCommand(), [])
  }

  /** The first token is consumed whatever it is. */
  lemma {:induction false} ProgramNameConsumed(program: string, rest: seq<string>)
    ensures Parse([program] + rest) == ParseOutcome(Feed(AfterProgramName(), rest))
  {
    FeedAppend(InitialMachine(), [program], rest);
  }

  /** The program name never influences the outcome; an empty argument list and a
      list holding only the program name give no commands and no error. */
  lemma ProgramNameIgnored(p: string, q: string, rest: seq<string>)
    ensures Parse([p] + rest) == Parse([q] + rest)
    ensures Parse([]) == ParseResult(CommandLineArguments([]), None)
    ensures Parse([p]) == ParseResult(CommandLineArguments([]), None)
  {
    ProgramNameConsumed(p, rest);
    ProgramNameConsumed(q, rest);
    ProgramNameConsumed(p, []);
    assert [p] + [] == [p];
  }

  /** The parser state after reading `prefix` without error. */
  predicate ReachedAfter(prefix: seq<string>, m: Machine)
  {
    Feed(InitialMachine(), prefix) == Next(m)
  }

  /** A machine reached from the start satisfies the parser invariant. */
  lemma ReachedIsValid(prefix: seq<string>, m: Machine)
    requires ReachedAfter(prefix, m)
    ensures Valid(m)
  {
    FeedPreserves(InitialMachine(), prefix);
  }

  /** At top level anything but a window or command option stops the parse with the
      "Unknown command line parameter" message, whatever follows, returning the
      commands finished so far. */
  lemma UnknownTopLevelTokenRejected(prefix: seq<string>, m: Machine, t: string, rest: seq<string>)
    requires ReachedAfter(prefix, m) && m.state == Flag
    requires t != "-w" && t != "--window" && t != "-c" && t != "--command"
    ensures Parse(prefix + [t] + rest)
      == ParseResult(CommandLineArguments(m.commands), Some(UnknownParameterMessage(t)))
  {
    assert Feed(InitialMachine(), prefix + [t] + rest) == Feed(m, [t] + rest) by {
      FeedAppend(InitialMachine(), prefix, [t] + rest);
      assert prefix + [t] + rest == prefix + ([t] + rest);
    }
    assert Feed(m, [t] + rest) == Halt(m.commands, UnknownParameterMessage(t)) by {
      FeedCons(m, t, rest);
    }
  }

  /** Inside a command block a token not starting with `--` (including `-w` and
      `-c`) stops the parse with the "must start with '--'" message. */
  lemma NonFlagInCommandRejected(prefix: seq<string>, m: Machine, t: string, rest: seq<string>)
    requires ReachedAfter(prefix, m) && m.state == CommandFlag
    requires !HasPrefix(t, "--")
    ensures Parse(prefix + [t] + rest)
      == ParseResult(CommandLineArguments(m.commands), Some(BadCommandParameterMessage(t)))
  {
    assert Feed(InitialMachine(), prefix + [t] + rest) == Feed(m, [t] + rest) by {
      FeedAppend(InitialMachine(), prefix, [t] + rest);
      assert prefix + [t] + rest == prefix + ([t] + rest);
    }
    assert Feed(m, [t] + rest) == Halt(m.commands, BadCommandParameterMessage(t)) by {
      FeedCons(m, t, rest);
    }
  }

  /** Input ending right after a parameter flag is an error; the open command is
      still returned, with its parameters so far. */
  lemma EndAfterParameterFlag(prefix: seq<string>, m: Machine, f: string)
    requires ReachedAfter(prefix, m) && m.state == CommandFlag
    requires IsFlagName(f)
    ensures Parse(prefix + [f])
      == ParseResult(CommandLineArguments(m.commands + [m.command]), Some(MissingValueMessage(f)))
  {
    ReachedIsValid(prefix, m);
    FeedAppend(InitialMachine(), prefix, [f]);
    FeedAppend(m, [f], []);
  }

  /** Input ending right after a window option is an error and returns no open command. */
  lemma EndAfterWindowOption(prefix: seq<string>, m: Machine, w: string)
    requires ReachedAfter(prefix, m) && m.state == Flag
    requires w == "-w" || w == "--window"
    ensures Parse(prefix + [w]) == ParseResult(CommandLineArguments(m.commands), Some(MissingWindowMessage))
  {
    ReachedIsValid(prefix, m);
    FeedAppend(InitialMachine(), prefix, [w]);
    FeedAppend(m, [w], []);
  }

  /** Input ending right after a command option, before its name, is not an error
      and produces no further command. */
  lemma EndAfterCommandOption(prefix: seq<string>, m: Machine, c: string)
    requires ReachedAfter(prefix, m) && m.state == Flag
    requires c == "-c" || c == "--command"
    ensures Parse(prefix + [c]) == ParseResult(CommandLineArguments(m.commands), None)
  {
    ReachedIsValid(prefix, m);
    FeedAppend(InitialMachine(), prefix, [c]);
    FeedAppend(m, [c], []);
  }

  /** A window option followed by a command block gives that command the window. */
  lemma WindowAppliesToNextCommand(prefix: seq<string>, m: Machine, w: string, window: string, name: string)
    requires ReachedAfter(prefix, m) && m.state == Flag
    requires w == "-w" || w == "--window"
    ensures Parse(prefix + [w, window, "-c", name])
      == ParseResult(CommandLineArguments(m.commands + [Command(Some(window), Some(name), map[])]), None)
  {
    ReachedIsValid(prefix, m);
    FeedAppend(InitialMachine(), prefix, [w, window, "-c", name]);
    var m1 := m.(state := WindowValue);
    var m2 := m1.(command := m.command.(window := Some(window)), state := Flag);
    var m3 := m2.(state := CommandName);
    var m4 := m3.(command := m3.command.(commandName := Some(name)), state := CommandFlag);
    FeedCons(m, w, [window, "-c", name]);
    FeedCons(m1, window, ["-c", name]);
    FeedCons(m2, "-c", [name]);
    FeedCons(m3, name, []);
    assert Feed(m, [w, window, "-c", name]) == Next(m4);
  }

  /** At top level a window option and its value set the open command's window. */
  lemma WindowOptionParsed(m: Machine, w: string, window: string, rest: seq<string>)
    requires m.state == Flag
    requires w == "-w" || w == "--window"
    ensures Feed(m, [w, window] + rest) == Feed(m.(command := m.command.(window := Some(window))), rest)
  {
    FeedCons(m, w, [window] + rest);
    FeedCons(m.(state := WindowValue), window, rest);
    assert [w, window] + rest == [w] + ([window] + rest);
  }

  /** A later window option before the same command overwrites an earlier one. */
  lemma LaterWindowWins(m: Machine, w1: string, a: string, w2: string, b: string, rest: seq<string>)
    requires m.state == Flag
    requires (w1 == "-w" || w1 == "--window") && (w2 == "-w" || w2 == "--window")
    ensures Feed(m, [w1, a, w2, b] + rest) == Feed(m, [w2, b] + rest)
  {
    var ma := m.(command := m.command.(window := Some(a)));
    var mb := m.(command := m.command.(window := Some(b)));
    assert [w1, a, w2, b] + rest == [w1, a] + ([w2, b] + rest);
    WindowOptionParsed(m, w1, a, [w2, b] + rest);
    WindowOptionParsed(ma, w2, b, rest);
    assert ma.(command := ma.command.(window := Some(b))) == mb;
    WindowOptionParsed(m, w2, b, rest);
  }

  /** A window option after a `--` separator (or at the start) that no command block
      follows is silently dropped: the result is that of the input without it. */
  lemma TrailingWindowDropped(prefix: seq<string>, m: Machine, w: string, window: string)
    requires ReachedAfter(prefix, m) && m.state == Flag
    requires w == "-w" || w == "--window"
    ensures Parse(prefix + [w, window]) == Parse(prefix)
    ensures Parse(prefix).error == None
  {
    ReachedIsValid(prefix, m);
    FeedAppend(InitialMachine(), prefix, [w, window]);
    var m1 := m.(state := WindowValue);
    var m2 := m.(command := m.command.(window := Some(window)));
    FeedCons(m, w, [window]);
    FeedCons(m1, window, []);
    assert Feed(m, [w, window]) == Next(m2);
  }

  /** A repeated parameter flag keeps the last value given. */
  lemma LastValueWins(m: Machine, f: string, v1: string, v2: string, rest: seq<string>)
    requires m.state == CommandFlag && IsFlagName(f)
    ensures Feed(m, [f, v1, f, v2] + rest) == Feed(m, [f, v2] + rest)
  {
    var p := m.command.commandParameters;
    var ma := m.(commandFlag := f, command := m.command.(commandParameters := p[f := v1]));
    var mb := m.(commandFlag := f, command := m.command.(commandParameters := p[f := v2]));
    assert [f, v1, f, v2] + rest == [f, v1] + ([f, v2] + rest);
    ParameterPairParsed(m, f, v1, [f, v2] + rest);
    ParameterPairParsed(ma, f, v2, rest);
    assert p[f := v1][f := v2] == p[f := v2];
    assert ma.(commandFlag := f, command := ma.command.(commandParameters := p[f := v1][f := v2])) == mb;
    ParameterPairParsed(m, f, v2, rest);
  }

  // ---------------------------------------------------------------------------
  // Rendering commands back into tokens, and the round trip through the parser.

  /** Some key of a non-empty map (the order in which keys are rendered is immaterial). */
  ghost function PickKey(p: map<string, string>): (k: string)
    requires |p| > 0
    ensures k in p
  {
    var k :| k in p; k
  }

  /** `--flag value` pairs, one per parameter. */
  ghost function ParameterTokens(p: map<string, string>): seq<string>
    decreases p.Keys
  {
    if |p| == 0 then []
    else
      var k := PickKey(p);
      [k, p[k]] + ParameterTokens(p - {k})
  }

  /** The tokens of one command block, closed by a `--` separator. */
  ghost function CommandTokens(c: Command): seq<string>
    requires WellFormed(c)
  {
    WindowTokens(c.window) + ["-c", c.commandName.value] + ParameterTokens(c.commandParameters) + ["--"]
  }

  /** The command-line tokens (program name excluded) for a list of named commands. */
  ghost function Unparse(cs: seq<Command>): seq<string>
    requires forall i :: 0 <= i < |cs| ==> WellFormed(cs[i])
  {
    if |cs| == 0 then [] else Unparse(cs[..|cs| - 1]) + CommandTokens(cs[|cs| - 1])
  }

  /** Setting one key of `p` and then adding the rest of `p` is adding `p`. */
  lemma MapUpdateThenUnion(params: map<string, string>, p: map<string, string>, k: string)
    requires k in p
    ensures params[k := p[k]] + (p - {k}) == params + p
  {
  }

  /** One `--flag value` pair inside a command block sets that parameter. */
  lemma ParameterPairParsed(m: Machine, k: string, v: string, rest: seq<string>)
    requires m.state == CommandFlag && IsFlagName(k)
    ensures Feed(m, [k, v] + rest)
      == Feed(m.(commandFlag := k, command := m.command.(commandParameters := m.command.commandParameters[k := v])), rest)
  {
    FeedCons(m, k, [v] + rest);
    FeedCons(m.(commandFlag := k, state := CommandValue), v, rest);
    assert [k, v] + rest == [k] + ([v] + rest);
  }

  /** Feeding the parameter pairs inside a command block adds exactly those parameters. */
  lemma {:induction false} ParameterTokensParsed(m: Machine, p: map<string, string>)
    requires m.state == CommandFlag
    requires forall k :: k in p ==> IsFlagName(k)
    ensures Feed(m, ParameterTokens(p)).Next?
    ensures var m' := Feed(m, ParameterTokens(p)).machine;
      && m'.state == CommandFlag
      && m'.commands == m.commands
      && m'.command == m.command.(commandParameters := m.command.commandParameters + p)
    decreases p.Keys
  {
    if |p| == 0 {
      assert p == map[];
      assert m.command.commandParameters + p == m.command.commandParameters;
      assert m.command.(commandParameters := m.command.commandParameters) == m.command;
    } else {
      var k := PickKey(p);
      var rest := p - {k};
      var params := m.command.commandParameters;
      assert ParameterTokens(p) == [k, p[k]] + ParameterTokens(rest);
      ParameterPairParsed(m, k, p[k], ParameterTokens(rest));
      var m1 := m.(commandFlag := k, command := m.command.(commandParameters := params[k := p[k]]));
      ParameterTokensParsed(m1, rest);
      MapUpdateThenUnion(params, p, k);
    }
  }

  /** The optional window option of a rendered command block. */
  function WindowTokens(window: Option<string>): seq<string>
  {
    if window.Some? then ["-w", window.value] else []
  }

  /** At top level the window tokens set the open command's window. */
  lemma WindowTokensParsed(m: Machine, window: Option<string>, rest: seq<string>)
    requires m.state == Flag && m.command.window == None
    ensures Feed(m, WindowTokens(window) + rest) == Feed(m.(command := m.command.(window := window)), rest)
  {
    if window.Some? {
      FeedCons(m, "-w", [window.value] + rest);
      FeedCons(m.(state := WindowValue), window.value, rest);
      assert WindowTokens(window) + rest == ["-w"] + ([window.value] + rest);
    } else {
      assert WindowTokens(window) + rest == rest;
      assert m.(command := m.command.(window := window)) == m;
    }
  }

  /** At top level `-c name` opens a command block with that name. */
  lemma CommandOptionParsed(m: Machine, name: string, rest: seq<string>)
    requires m.state == Flag
    ensures Feed(m, ["-c", name] + rest)
      == Feed(m.(command := m.command.(commandName := Some(name)), state := CommandFlag), rest)
  {
    FeedCons(m, "-c", [name] + rest);
    FeedCons(m.(state := CommandName), name, rest);
    assert ["-c", name] + rest == ["-c"] + ([name] + rest);
  }

  /** Feeding one rendered command block at top level appends exactly that command. */
  lemma CommandTokensParsed(m: Machine, c: Command)
    requires m.state == Flag && m.command == MakeCommand()
    requires WellFormed(c)
    ensures Feed(m, CommandTokens(c)).Next?
    ensures var m' := Feed(m, CommandTokens(c)).machine;
      m'.state == Flag && m'.command == MakeCommand() && m'.commands == m.commands + [c]
  {
    var name := c.commandName.value;
    var parameterTokens := ParameterTokens(c.commandParameters);
    assert CommandTokens(c) == WindowTokens(c.window) + (["-c", name] + (parameterTokens + ["--"]));
    var m1 := m.(command := m.command.(window := c.window));
    WindowTokensParsed(m, c.window, ["-c", name] + (parameterTokens + ["--"]));
    var m2 := m1.(command := m1.command.(commandName := Some(name)), state := CommandFlag);
    CommandOptionParsed(m1, name, parameterTokens + ["--"]);
    ParameterTokensParsed(m2, c.commandParameters);
    FeedAppend(m2, parameterTokens, ["--"]);
    var m3 := Feed(m2, parameterTokens).machine;
    assert m2.command.commandParameters + c.commandParameters == c.commandParameters;
    assert m3.command == c;
    FeedCons(m3, "--", []);
  }

  /** Feeding a whole rendering at top level appends exactly the rendered commands. */
  lemma {:induction false} UnparseParsed(m: Machine, cs: seq<Command>)
    requires m.state == Flag && m.command == MakeCommand()
    requires forall i :: 0 <= i < |cs| ==> WellFormed(cs[i])
    ensures Feed(m, Unparse(cs)).Next?
    ensures var m' := Feed(m, Unparse(cs)).machine;
      m'.state == Flag && m'.command == MakeCommand() && m'.commands == m.commands + cs
  {
    if |cs| == 0 {
      assert m.commands + cs == m.commands;
    } else {
      var init := cs[..|cs| - 1];
      var last := cs[|cs| - 1];
      UnparseParsed(m, init);
      FeedAppend(m, Unparse(init), CommandTokens(last));
      CommandTokensParsed(Feed(m, Unparse(init)).machine, last);
      assert m.commands + init + [last] == m.commands + cs;
    }
  }

  /** Round trip: parsing the rendering of any list of well-formed commands gives
      back exactly that list, in order, with no error. Together with the contract of
      `Parse` (every returned command is well formed) this characterises the
      successful parse results. */
  lemma ParseUnparse(program: string, cs: seq<Command>)
    requires forall i :: 0 <= i < |cs| ==> WellFormed(cs[i])
    ensures Parse([program] + Unparse(cs)) == ParseResult(CommandLineArguments(cs), None)
  {
    var tokens := Unparse(cs);
    ProgramNameConsumed(program, tokens);
    UnparseParsed(AfterProgramName(), cs);
    var m := Feed(AfterProgramName(), tokens).machine;
    assert [] + cs == cs;
    FinishAtTopLevel(m);
  }

  /** Input ending at top level, with no command block open, is no error. */
  lemma FinishAtTopLevel(m: Machine)
    requires m.state == Flag && m.command == MakeCommand()
    ensures Finish(m) == ParseResult(CommandLineArguments(m.commands), None)
  {
  }

  // ---------------------------------------------------------------------------
  // Worked examples, including the inputs of the repository's unit tests.

  /** `-c extraterm:window.listAll` gives one command with that name and no parameters. */
  lemma ExampleSingleCommand()
    ensures Parse(["extraterm-launcher", "-c", "extraterm:window.listAll"])
      == ParseResult(CommandLineArguments([Command(None, Some("extraterm:window.listAll"), map[])]), None)
  {
  }

  /** Adding `--foo-bar true` adds the key `--foo-bar` with value `true`. */
  lemma ExampleCommandParameter()
    ensures Parse(["extraterm-launcher", "-c", "extraterm:window.listAll", "--foo-bar", "true"])
      == ParseResult(CommandLineArguments(
           [Command(None, Some("extraterm:window.listAll"), map["--foo-bar" := "true"])]), None)
  {
    var name, flag := "extraterm:window.listAll", "--foo-bar";
    var rest := ["-c", name] + ([flag, "true"] + []);
    assert ["extraterm-launcher", "-c", "extraterm:window.listAll", "--foo-bar", "true"]
      == ["extraterm-launcher"] + rest;
    assert IsFlagName(flag);
    ProgramNameConsumed("extraterm-launcher", rest);
    var m := AfterProgramName();
    CommandOptionParsed(m, name, [flag, "true"] + []);
    var m1 := m.(command := m.command.(commandName := Some(name)), state := CommandFlag);
    ParameterPairParsed(m1, flag, "true", []);
  }

  /** Two command blocks separated by `--` give two commands in order; the window of
      the first does not carry over to the second at parse time. */
  lemma ExampleTwoCommands()
    ensures Parse(["extraterm-launcher", "-w", "1", "-c", "A", "--", "-c", "B"])
      == ParseResult(CommandLineArguments(
           [Command(Some("1"), Some("A"), map[]), Command(None, Some("B"), map[])]), None)
  {
    var r3 := ["-c", "B"] + [];
    var r2 := ["--"] + r3;
    var r1 := ["-c", "A"] + r2;
    var rest := ["-w", "1"] + r1;
    assert ["extraterm-launcher", "-w", "1", "-c", "A", "--", "-c", "B"] == ["extraterm-launcher"] + rest;
    var a := Command(Some("1"), Some("A"), map[]);
    var m := AfterProgramName();
    var m1 := m.(command := m.command.(window := Some("1")));
    var m2 := m1.(command := m1.command.(commandName := Some("A")), state := CommandFlag);
    var m3 := m2.(commands := [a], command := MakeCommand(), state := Flag);
    var m4 := m3.(command := m3.command.(commandName := Some("B")), state := CommandFlag);
    assert Feed(m, rest) == Feed(m1, r1) by { WindowOptionParsed(m, "-w", "1", r1); }
    assert Feed(m1, r1) == Feed(m2, r2) by { CommandOptionParsed(m1, "A", r2); }
    assert Feed(m2, r2) == Feed(m3, r3) by {
      FeedCons(m2, "--", r3);
      assert Transition(m2, "--") == Next(m3);
    }
    assert Feed(m3, r3) == Next(m4) by { CommandOptionParsed(m3, "B", []); }
    assert Finish(m4) == ParseResult(CommandLineArguments([a, Command(None, Some("B"), map[])]), None);
    ProgramNameConsumed("extraterm-launcher", rest);
  }

  /** Without a separator a second `-c` inside a block is rejected. */
  lemma ExampleSecondCommandWithoutSeparator()
    ensures Parse(["extraterm-launcher", "-c", "extraterm:window.listAll", "-c", "extraterm:window.show"])
      == ParseResult(CommandLineArguments([]), Some(BadCommandParameterMessage("-c")))
  {
  }

  /** A window option after the command name is rejected as well. */
  lemma ExampleWindowAfterCommand()
    ensures Parse(["extraterm-launcher", "-c", "extraterm:window.show", "-w", "1"])
      == ParseResult(CommandLineArguments([]), Some(BadCommandParameterMessage("-w")))
  {
  }

  /** A bare directory argument is an unknown top-level parameter. */
  lemma ExampleBareArgument()
    ensures Parse(["extraterm-launcher", "/home/sbe"])
      == ParseResult(CommandLineArguments([]), Some(UnknownParameterMessage("/home/sbe")))
  {
  }
}
