/** The decision logic of the launcher's `main`: find or start the main application,
    then send it either the two built-in commands (open a terminal window at a
    directory, then show all windows) or the commands from the command line. Every
    outside effect is an input: the content of `ipc.run` and the answer to the ping
    at each readiness attempt, whether the main executable could be started, and the
    answer to each command request. */
module Launcher {
  import opened Wrappers
  import opened ArgsParser
  import opened ArgsParserProperties
  import WordCase
  import IpcRun

  // ---------------------------------------------------------------------------
  // HTTP status classification.

  /** A status outside the success range 200..299 is an error. */
  function IsErrorHttpStatusCode(status: int): (b: bool)
    ensures b <==> !(200 <= status < 300)
  {
    status < 200 || status >= 300
  }

  /** Success statuses are exactly the 2xx range: its two ends pass, one step beyond
      either end and the common failure codes do not. */
  lemma HttpStatusBoundaries()
    ensures !IsErrorHttpStatusCode(200) && !IsErrorHttpStatusCode(204) && !IsErrorHttpStatusCode(299)
    ensures IsErrorHttpStatusCode(199) && IsErrorHttpStatusCode(300)
    ensures IsErrorHttpStatusCode(404) && IsErrorHttpStatusCode(500)
  {
  }

  // ---------------------------------------------------------------------------
  // Finding the main application.

  /** What one look for the main application observes: the content of `ipc.run`
      (`None` when it cannot be read) and whether the URL read from it answered the
      ping with `pong`. */
  datatype Probe = Probe(content: Option<string>, pong: bool)

  /** The ping succeeds. A request to the empty URL has no scheme and always fails,
      whatever the server would answer. */
  predicate Ping(url: string, pong: bool)
  {
    url != "" && pong
  }

  /** The wait between two looks, and the time after which waiting stops. */
  const SleepTimeMs: nat := 250
  const RetryTimeMs: nat := 10000

  /** The number of looks the readiness wait takes at most. */
  const MaxAttempts: nat := 40

  /** Reference description of the readiness wait: look at `probe(from)`, then at the
      following ones, at most `budget` times. A look that finds a pinging URL ends the
      wait with it, an unreadable second line in `ipc.run` is a run-time failure, and
      running out of looks yields the empty URL. */
  function Poll(probe: nat -> Probe, from: nat, budget: nat): Result<string, string>
    decreases budget
  {
    if budget == 0 then Success("")
    else
      var read := IpcRun.ReadIpcRunFile(probe(from).content);
      if read.Failure? then Failure(read.error)
      else if Ping(read.value, probe(from).pong) then Success(read.value)
      else Poll(probe, from + 1, budget - 1)
  }

  /** Go's `waitForMainExecutableToAppear`: a loop over elapsed time from 0 up to
      10 s in 250 ms steps, reading `ipc.run` and pinging once per step. It makes
      `attempts` looks, at most 40, and its result is that of the reference
      description; it gives the empty URL only after all 40 looks, and a non-empty
      URL only when the last look read it and its ping succeeded. */
  method WaitForMainExecutableToAppear(probe: nat -> Probe) returns (r: Result<string, string>, attempts: nat)
    ensures attempts <= MaxAttempts
    ensures r == Poll(probe, 0, MaxAttempts)
    ensures r == Success("") ==> attempts == MaxAttempts
    ensures r.Success? && r.value != "" ==>
      && attempts > 0
      && IpcRun.ReadIpcRunFile(probe(attempts - 1).content) == Success(r.value)
      && probe(attempts - 1).pong
  {
    var elapsed := 0;
    attempts := 0;
    while elapsed < RetryTimeMs
      invariant elapsed == attempts * SleepTimeMs
      invariant attempts <= MaxAttempts
      invariant Poll(probe, 0, MaxAttempts) == Poll(probe, attempts, MaxAttempts - attempts)
    {
      var read := IpcRun.ReadIpcRunFile(probe(attempts).content);
      if read.Failure? {
        return Failure(read.error), attempts + 1;
      }
      if Ping(read.value, probe(attempts).pong) {
        return read, attempts + 1;
      }
      attempts := attempts + 1;
      elapsed := elapsed + SleepTimeMs;
    }
    assert attempts == MaxAttempts;
    return Success(""), attempts;
  }

  /** The first look that ends the wait: every earlier look read a URL that did not
      ping. A wait that ends with a URL or a failure has such a look. */
  lemma {:induction false} PollStopsAtFirstReadyLook(probe: nat -> Probe, from: nat, budget: nat)
    requires Poll(probe, from, budget) != Success("")
    ensures exists n :: 0 <= n < budget && StopsAt(probe, from, n)
    decreases budget
  {
    if Stops(probe(from)) {
      assert StopsAt(probe, from, 0);
    } else {
      assert Poll(probe, from, budget) == Poll(probe, from + 1, budget - 1);
      PollStopsAtFirstReadyLook(probe, from + 1, budget - 1);
      var n :| 0 <= n < budget - 1 && StopsAt(probe, from + 1, n);
      StopsAtEarlier(probe, from, n);
    }
  }

  /** A look that does not end the wait moves the first ending look one step later. */
  lemma StopsAtEarlier(probe: nat -> Probe, from: nat, n: nat)
    requires !Stops(probe(from)) && StopsAt(probe, from + 1, n)
    ensures StopsAt(probe, from, n + 1)
  {
    assert from + 1 + n == from + (n + 1);
  }

  /** The look `from + n` fails or finds a pinging URL, and each look before it read
      a URL that did not ping. */
  predicate StopsAt(probe: nat -> Probe, from: nat, n: nat)
  {
    && Stops(probe(from + n))
    && forall j :: from <= j < from + n ==> !Stops(probe(j))
  }

  /** A look ends the wait. */
  predicate Stops(p: Probe)
  {
    var read := IpcRun.ReadIpcRunFile(p.content);
    read.Failure? || Ping(read.value, p.pong)
  }

  /** The failure Go raises when the main executable cannot be started. */
  const StartFailure: string := "Unable to start the main Extraterm executable."

  /** Reference description of the launch step: the cached URL when it is readable,
      non-empty and pings; otherwise the readiness wait after a successful start, or
      the start failure; a failure reading `ipc.run` propagates. */
  function LaunchOutcome(cached: Probe, started: bool, probe: nat -> Probe): Result<string, string>
  {
    var read := IpcRun.ReadIpcRunFile(cached.content);
    if read.Failure? then Failure(read.error)
    else if Ping(read.value, cached.pong) then read
    else if started then Poll(probe, 0, MaxAttempts)
    else Failure(StartFailure)
  }

  /** Go's `launchMainExecutable`: a URL cached in `ipc.run` is used when it is
      non-empty and answers the ping; otherwise the main executable is started (its
      start may fail, a run-time failure) and the readiness wait decides. */
  method LaunchMainExecutable(cached: Probe, started: bool, probe: nat -> Probe) returns (r: Result<string, string>)
    ensures var read := IpcRun.ReadIpcRunFile(cached.content);
      read.Failure? ==> r == Failure(read.error)
    ensures var read := IpcRun.ReadIpcRunFile(cached.content);
      read.Success? && Ping(read.value, cached.pong) ==> r == read
    ensures var read := IpcRun.ReadIpcRunFile(cached.content);
      read.Success? && !Ping(read.value, cached.pong) ==>
        r == if started then Poll(probe, 0, MaxAttempts) else Failure(StartFailure)
    ensures r == LaunchOutcome(cached, started, probe)
  {
    var read := IpcRun.ReadIpcRunFile(cached.content);
    if read.Failure? {
      return Failure(read.error);
    }
    if read.value != "" {
      if Ping(read.value, cached.pong) {
        return read;
      }
    }
    if !started {
      return Failure(StartFailure);
    }
    var attempts;
    r, attempts := WaitForMainExecutableToAppear(probe);
  }

  /** A URL the launch step hands over was read from `ipc.run` and answered the ping:
      either the cached one, or the one found by one of the 40 looks after a start. */
  lemma LaunchedUrlAnsweredPing(cached: Probe, started: bool, probe: nat -> Probe)
    requires LaunchOutcome(cached, started, probe).Success?
    requires LaunchOutcome(cached, started, probe).value != ""
    ensures var u := LaunchOutcome(cached, started, probe).value;
      || (IpcRun.ReadIpcRunFile(cached.content) == Success(u) && cached.pong)
      || (&& started
          && exists n :: 0 <= n < MaxAttempts && IpcRun.ReadIpcRunFile(probe(n).content) == Success(u) && probe(n).pong)
  {
    var read := IpcRun.ReadIpcRunFile(cached.content);
    if !(read.Success? && Ping(read.value, cached.pong)) {
      PollAnswersWithPingedUrl(probe, 0, MaxAttempts);
    }
  }

  /** The launch step gives the empty URL only after a start, when none of the 40
      looks found a pinging URL or failed. */
  lemma LaunchGaveUpAfterAllLooks(cached: Probe, started: bool, probe: nat -> Probe)
    requires LaunchOutcome(cached, started, probe) == Success("")
    ensures started
    ensures forall n :: 0 <= n < MaxAttempts ==> !Stops(probe(n))
  {
    PollEmptyMeansNoLookStopped(probe, 0, MaxAttempts);
  }

  /** A non-empty URL from the readiness wait was read and pinged by one of its looks. */
  lemma {:induction false} PollAnswersWithPingedUrl(probe: nat -> Probe, from: nat, budget: nat)
    requires Poll(probe, from, budget).Success? && Poll(probe, from, budget).value != ""
    ensures exists n ::
      && from <= n < from + budget
      && IpcRun.ReadIpcRunFile(probe(n).content) == Success(Poll(probe, from, budget).value)
      && probe(n).pong
    decreases budget
  {
    var read := IpcRun.ReadIpcRunFile(probe(from).content);
    if read.Success? && Ping(read.value, probe(from).pong) {
      assert IpcRun.ReadIpcRunFile(probe(from).content) == Success(Poll(probe, from, budget).value);
    } else {
      assert Poll(probe, from, budget) == Poll(probe, from + 1, budget - 1);
      PollAnswersWithPingedUrl(probe, from + 1, budget - 1);
    }
  }

  /** The readiness wait yields the empty URL exactly when none of its looks ends it. */
  lemma {:induction false} PollEmptyMeansNoLookStopped(probe: nat -> Probe, from: nat, budget: nat)
    ensures Poll(probe, from, budget) == Success("") <==>
      forall j :: from <= j < from + budget ==> !Stops(probe(j))
    decreases budget
  {
    if budget > 0 {
      PollEmptyMeansNoLookStopped(probe, from + 1, budget - 1);
    }
  }

  // ---------------------------------------------------------------------------
  // The request payload and the two built-in commands.

  /** The JSON body of a command request: name, window and converted arguments. */
  datatype CommandJson = CommandJson(command: Option<string>, window: Option<string>, args: map<string, string>)

  /** A map iteration order usable for a command's parameters. */
  predicate PayloadOrder(c: Command, order: seq<string>)
  {
    && WordCase.IsIterationOrder(order, c.commandParameters)
    && WordCase.ConvertibleKeys(c.commandParameters)
  }

  /** The payload `runCommand` marshals for `c`, iterating its parameters in `order`. */
  function MakePayload(c: Command, order: seq<string>): CommandJson
    requires PayloadOrder(c, order)
  {
    CommandJson(c.commandName, c.window, WordCase.KababCaseToCamelCaseMapKeys(c.commandParameters, order))
  }

  /** Every parameter key the parser produces can be converted. */
  lemma WellFormedConvertible(c: Command)
    requires WellFormed(c)
    ensures WordCase.ConvertibleKeys(c.commandParameters)
  {
    forall k | k in c.commandParameters
      ensures |k| >= 2
    {
      assert IsFlagName(k);
    }
  }

  const NewTerminalCommandName: string := "extraterm:window.newTerminal"
  const ShowAllCommandName: string := "extraterm:window.showAll"
  const WorkingDirectoryFlag: string := "--working-directory"

  /** The command `runOpenWindowAtCommand` sends: a new terminal at `path`, in no
      particular window. */
  function OpenWindowAtCommand(path: string): (c: Command)
    ensures WellFormed(c)
  {
    Command(None, Some(NewTerminalCommandName), map[WorkingDirectoryFlag := path])
  }

  /** The command `runShowWindowCommand` sends: show all windows. */
  function ShowWindowCommand(): (c: Command)
    ensures WellFormed(c)
  {
    Command(None, Some(ShowAllCommandName), map[])
  }

  /** The built-in commands are what the parser makes of the corresponding command
      lines, so they are ordinary commands. */
  lemma BuiltInCommandsParse(program: string, path: string)
    ensures Parse([program, "-c", NewTerminalCommandName, WorkingDirectoryFlag, path])
      == ParseResult(CommandLineArguments([OpenWindowAtCommand(path)]), None)
    ensures Parse([program, "-c", ShowAllCommandName])
      == ParseResult(CommandLineArguments([ShowWindowCommand()]), None)
  {
    var open := ["-c", NewTerminalCommandName, WorkingDirectoryFlag, path];
    assert [program, "-c", NewTerminalCommandName, WorkingDirectoryFlag, path] == [program] + open;
    ProgramNameConsumed(program, open);
    var m := AfterProgramName();
    assert open == ["-c", NewTerminalCommandName] + ([WorkingDirectoryFlag, path] + []);
    CommandOptionParsed(m, NewTerminalCommandName, [WorkingDirectoryFlag, path] + []);
    var m1 := m.(command := m.command.(commandName := Some(NewTerminalCommandName)), state := CommandFlag);
    assert IsFlagName(WorkingDirectoryFlag);
    ParameterPairParsed(m1, WorkingDirectoryFlag, path, []);

    var show := ["-c", ShowAllCommandName];
    assert [program, "-c", ShowAllCommandName] == [program] + show;
    ProgramNameConsumed(program, show);
    assert show == ["-c", ShowAllCommandName] + [];
    CommandOptionParsed(m, ShowAllCommandName, []);
  }

  /** The new-terminal request carries the directory under the single argument
      `workingDirectory`, and no window. */
  lemma OpenWindowPayload(path: string)
    ensures PayloadOrder(OpenWindowAtCommand(path), [WorkingDirectoryFlag])
    ensures MakePayload(OpenWindowAtCommand(path), [WorkingDirectoryFlag])
      == CommandJson(Some(NewTerminalCommandName), None,
                     map["workingDirectory" := path])
  {
    assert WordCase.ConvertKey(WorkingDirectoryFlag) == "workingDirectory" by {
      WorkingDirectoryArgument();
    }
    var c := OpenWindowAtCommand(path);
    var order := [WorkingDirectoryFlag];
    assert order[..0] == [];
    assert WordCase.RemapKeys(c.commandParameters, order, WordCase.ConvertKey)
      == map[WordCase.ConvertKey(WorkingDirectoryFlag) := path];
  }

  /** The directory argument reaches the main application as `workingDirectory`. */
  lemma WorkingDirectoryArgument()
    ensures WordCase.KababCaseToCamelCase(WorkingDirectoryFlag) == "workingDirectory"
  {
    var a, b := "working", "directory";
    assert "--" + a + "-" + b == WorkingDirectoryFlag;
    assert a + WordCase.Capitalised(b) == "workingDirectory";
    WordCase.TwoParts(a, b);
  }

  /** The show-all request carries no window and no arguments. */
  lemma ShowWindowPayload()
    ensures PayloadOrder(ShowWindowCommand(), [])
    ensures MakePayload(ShowWindowCommand(), []) == CommandJson(Some(ShowAllCommandName), None, map[])
  {
  }

  // ---------------------------------------------------------------------------
  // Window propagation across the commands of one invocation.

  /** The most recent explicit window among `cs`, if any. */
  function LatestWindow(cs: seq<Command>): Option<string>
    decreases |cs|
  {
    if |cs| == 0 then None
    else if cs[|cs| - 1].window.Some? then cs[|cs| - 1].window
    else LatestWindow(cs[..|cs| - 1])
  }

  /** The commands as `runAllCommands` sends them: each command without a window of
      its own takes the most recent explicit window given before it. */
  function PropagateWindows(cs: seq<Command>): (r: seq<Command>)
    ensures |r| == |cs|
  {
    seq(|cs|, i requires 0 <= i < |cs| => cs[i].(window := LatestWindow(cs[..i + 1])))
  }

  /** Only windows change, and a command with an explicit window keeps it. */
  lemma PropagationKeepsExplicitWindows(cs: seq<Command>, i: nat)
    requires i < |cs|
    ensures PropagateWindows(cs)[i].commandName == cs[i].commandName
    ensures PropagateWindows(cs)[i].commandParameters == cs[i].commandParameters
    ensures cs[i].window.Some? ==> PropagateWindows(cs)[i].window == cs[i].window
  {
    assert cs[..i + 1][i] == cs[i];
  }

  /** A command without a window takes the window of the nearest earlier command that
      has one. */
  lemma PropagationInheritsLatest(cs: seq<Command>, j: nat, i: nat)
    requires j < i < |cs|
    requires cs[j].window.Some?
    requires forall k :: j < k <= i ==> cs[k].window.None?
    ensures PropagateWindows(cs)[i].window == cs[j].window
  {
    LatestWindowAfter(cs[..i + 1], j);
  }

  /** Without an explicit window up to and including a command, it gets none. */
  lemma PropagationWithoutEarlierWindow(cs: seq<Command>, i: nat)
    requires i < |cs|
    requires forall k :: 0 <= k <= i ==> cs[k].window.None?
    ensures PropagateWindows(cs)[i].window.None?
  {
    LatestWindowNone(cs[..i + 1]);
  }

  /** Propagation never goes backward: later commands do not change earlier ones. */
  lemma PropagationIsForwardOnly(cs: seq<Command>, more: seq<Command>)
    ensures PropagateWindows(cs + more)[..|cs|] == PropagateWindows(cs)
  {
    var a := PropagateWindows(cs + more)[..|cs|];
    var b := PropagateWindows(cs);
    forall i | 0 <= i < |cs|
      ensures a[i] == b[i]
    {
      assert (cs + more)[..i + 1] == cs[..i + 1];
    }
  }

  /** The latest window is that of the last command having one. */
  lemma {:induction false} LatestWindowAfter(cs: seq<Command>, j: nat)
    requires j < |cs| && cs[j].window.Some?
    requires forall k :: j < k < |cs| ==> cs[k].window.None?
    ensures LatestWindow(cs) == cs[j].window
    decreases |cs|
  {
    if j < |cs| - 1 {
      var init := cs[..|cs| - 1];
      assert init[j] == cs[j];
      LatestWindowAfter(init, j);
    }
  }

  /** Commands without windows have no latest window. */
  lemma {:induction false} LatestWindowNone(cs: seq<Command>)
    requires forall k :: 0 <= k < |cs| ==> cs[k].window.None?
    ensures LatestWindow(cs).None?
    decreases |cs|
  {
    if |cs| > 0 {
      LatestWindowNone(cs[..|cs| - 1]);
    }
  }

  /** One more command: the latest window is its own if it has one, the previous
      latest window otherwise. */
  lemma LatestWindowSnoc(cs: seq<Command>, c: Command)
    ensures LatestWindow(cs + [c]) == if c.window.Some? then c.window else LatestWindow(cs)
  {
    assert (cs + [c])[..|cs|] == cs;
  }


  // ---------------------------------------------------------------------------
  // Sending the commands.

  /** The failure Go raises when a request cannot be made or its reply not read. */
  const TransportFailure: string := "command request failed"

  /** How an invocation ends: a run-time failure (Go's panic) or an exit with a code,
      along with the commands that were sent in either case. */
  datatype Outcome = Panicked(reason: string, sent: seq<Command>) | Exited(code: int, sent: seq<Command>)

  /** Reference description of sending `cs` in order, `reply(k)` answering the
      `k`-th request: a failed request is a run-time failure and an error status
      exits with 1, either one ending the sending with the commands sent so far;
      when every request succeeds the exit code is 0. */
  function SendAll(cs: seq<Command>, reply: nat -> Option<int>): Outcome
  {
    SendFrom(cs, reply, 0)
  }

  /** `SendAll` after the first `k` requests succeeded. */
  function SendFrom(cs: seq<Command>, reply: nat -> Option<int>, k: nat): Outcome
    requires k <= |cs|
    decreases |cs| - k
  {
    if k == |cs| then Exited(0, cs)
    else if reply(k).None? then Panicked(TransportFailure, cs[..k + 1])
    else if IsErrorHttpStatusCode(reply(k).value) then Exited(1, cs[..k + 1])
    else SendFrom(cs, reply, k + 1)
  }

  /** Go's `runAllCommands`. `reply(k)` is the answer to the `k`-th request: its
      status, or `None` when the request failed outright (a run-time failure). The
      commands go out in order with their windows propagated, and sending stops at
      the first error status (exit code 1) or failed request. The exit code is 0
      exactly when every command was sent and none got an error status; taken as an
      outcome, the result is that of sending the propagated commands. */
  method RunAllCommands(commands: seq<Command>, reply: nat -> Option<int>) returns (r: Result<int, string>, sent: seq<Command>)
    ensures sent <= PropagateWindows(commands)
    ensures forall k :: 0 <= k < |sent| - 1 ==> reply(k).Some? && !IsErrorHttpStatusCode(reply(k).value)
    ensures r == Success(0) <==>
      && |sent| == |commands|
      && forall k :: 0 <= k < |commands| ==> reply(k).Some? && !IsErrorHttpStatusCode(reply(k).value)
    ensures r == Success(1) <==>
      |sent| > 0 && reply(|sent| - 1).Some? && IsErrorHttpStatusCode(reply(|sent| - 1).value)
    ensures r.Failure? <==> |sent| > 0 && reply(|sent| - 1).None?
    ensures r.Failure? ==> r.error == TransportFailure
    ensures r.Success? ==> r.value == 0 || r.value == 1
    ensures (if r.Failure? then Panicked(r.error, sent) else Exited(r.value, sent))
      == SendAll(PropagateWindows(commands), reply)
  {
    ghost var all := PropagateWindows(commands);
    var window: Option<string> := None;
    sent := [];
    var i := 0;
    while i < |commands|
      invariant 0 <= i <= |commands|
      invariant window == LatestWindow(commands[..i])
      invariant sent == all[..i]
      invariant forall k :: 0 <= k < i ==> reply(k).Some? && !IsErrorHttpStatusCode(reply(k).value)
      invariant SendAll(all, reply) == SendFrom(all, reply, i)
    {
      var command := commands[i];
      if command.window.Some? {
        window := command.window;
      }
      if command.window.None? {
        command := command.(window := window);
      }
      LatestWindowSnoc(commands[..i], commands[i]);
      assert commands[..i + 1] == commands[..i] + [commands[i]];
      sent := sent + [command];
      assert sent == all[..i + 1];
      var status := reply(i);
      if status.None? {
        assert SendFrom(all, reply, i) == Panicked(TransportFailure, sent);
        return Failure(TransportFailure), sent;
      }
      if IsErrorHttpStatusCode(status.value) {
        assert SendFrom(all, reply, i) == Exited(1, sent);
        return Success(1), sent;
      }
      assert SendFrom(all, reply, i) == SendFrom(all, reply, i + 1);
      i := i + 1;
    }
    assert all[..i] == all;
    assert SendFrom(all, reply, i) == Exited(0, sent);
    return Success(0), sent;
  }

  // ---------------------------------------------------------------------------
  // The whole invocation.

  /** Reference description of the built-in flow: open a window at `path`, then show
      all windows, sent as one sequence of two requests. */
  function OpenShow(path: string, reply: nat -> Option<int>): Outcome
  {
    SendAll([OpenWindowAtCommand(path), ShowWindowCommand()], reply)
  }

  /** Go's `runOpenWindowAtCommand` followed, on success, by `runShowWindowCommand`,
      with `reply(0)` and `reply(1)` answering the two requests. The show request goes
      out only after the open request succeeded, and the outcome is that of sending
      the two built-in commands in order. */
  method OpenThenShow(path: string, reply: nat -> Option<int>) returns (o: Outcome)
    ensures o.sent == if reply(0).Some? && !IsErrorHttpStatusCode(reply(0).value)
      then [OpenWindowAtCommand(path), ShowWindowCommand()]
      else [OpenWindowAtCommand(path)]
    ensures o.Exited? && o.code == 0 <==>
      && reply(0).Some? && !IsErrorHttpStatusCode(reply(0).value)
      && reply(1).Some? && !IsErrorHttpStatusCode(reply(1).value)
    ensures o.Panicked? <==> reply(0).None? || (!IsErrorHttpStatusCode(reply(0).value) && reply(1).None?)
    ensures o.Exited? ==> o.code == 0 || o.code == 1
    ensures o == OpenShow(path, reply)
  {
    var both := [OpenWindowAtCommand(path), ShowWindowCommand()];
    assert both[..1] == [OpenWindowAtCommand(path)] && both[..2] == both;
    assert SendFrom(both, reply, 2) == Exited(0, both);
    var first := reply(0);
    if first.None? {
      return Panicked(TransportFailure, [OpenWindowAtCommand(path)]);
    }
    if IsErrorHttpStatusCode(first.value) {
      return Exited(1, [OpenWindowAtCommand(path)]);
    }
    assert OpenShow(path, reply) == SendFrom(both, reply, 1);
    var second := reply(1);
    var sent := [OpenWindowAtCommand(path), ShowWindowCommand()];
    if second.None? {
      return Panicked(TransportFailure, sent);
    }
    var code := if IsErrorHttpStatusCode(second.value) then 1 else 0;
    return Exited(code, sent);
  }

  /** Reference description of a whole invocation: a parse error, then a failed
      launch step, each end it before anything is sent; otherwise the built-in flow
      runs at the first positional argument, or at the working directory when no
      command was given, or else the parsed commands are sent with their windows
      propagated. */
  function Invocation(args: seq<string>, bareArgs: seq<string>, cwd: string,
                      cached: Probe, started: bool, probe: nat -> Probe,
                      reply: nat -> Option<int>): Outcome
  {
    var parsed := Parse(args);
    var url := LaunchOutcome(cached, started, probe);
    if parsed.error.Some? then Panicked(parsed.error.value, [])
    else if url.Failure? then Panicked(url.error, [])
    else if |bareArgs| > 0 then OpenShow(bareArgs[0], reply)
    else if parsed.parsed.commands == [] then OpenShow(cwd, reply)
    else SendAll(PropagateWindows(parsed.parsed.commands), reply)
  }

  /** Go's `main`. `args` are the process arguments, program name first; `bareArgs`
      are the positional arguments (a field the parser in argsparser.go never fills,
      so it is an input of its own); `cwd` is the working directory. A parse error is
      a run-time failure before anything is sent or started. Then the main
      application is found or started; with a positional argument the first one is
      the directory for the two built-in commands and the parsed commands are
      ignored; with no commands the working directory is used; otherwise the parsed
      commands run. Once the launch step succeeds something is sent, and the exit
      code is 0 exactly when every request of the chosen flow succeeded. */
  method RunLauncher(args: seq<string>, bareArgs: seq<string>, cwd: string,
                     cached: Probe, started: bool, probe: nat -> Probe,
                     reply: nat -> Option<int>) returns (o: Outcome)
    ensures Parse(args).error.Some? ==> o == Panicked(Parse(args).error.value, [])
    ensures Parse(args).error.None? && |bareArgs| > 0 && o.sent != [] ==>
      o.sent[0] == OpenWindowAtCommand(bareArgs[0])
    ensures Parse(args).error.None? && |bareArgs| == 0 && Parse(args).parsed.commands == [] && o.sent != [] ==>
      o.sent[0] == OpenWindowAtCommand(cwd)
    ensures Parse(args).error.None? && |bareArgs| == 0 && Parse(args).parsed.commands != [] ==>
      o.sent <= PropagateWindows(Parse(args).parsed.commands)
    ensures |o.sent| == 2 && (|bareArgs| > 0 || Parse(args).parsed.commands == []) ==>
      o.sent[1] == ShowWindowCommand()
    ensures o.Exited? ==> o.code == 0 || o.code == 1
    ensures Parse(args).error.None? && LaunchOutcome(cached, started, probe).Failure? ==>
      o == Panicked(LaunchOutcome(cached, started, probe).error, [])
    ensures Parse(args).error.None? && LaunchOutcome(cached, started, probe).Success? ==> o.sent != []
    ensures (Parse(args).error.None? && LaunchOutcome(cached, started, probe).Success?
             && (|bareArgs| > 0 || Parse(args).parsed.commands == [])) ==>
      (o.Exited? && o.code == 0 <==>
        && reply(0).Some? && !IsErrorHttpStatusCode(reply(0).value)
        && reply(1).Some? && !IsErrorHttpStatusCode(reply(1).value))
    ensures (Parse(args).error.None? && LaunchOutcome(cached, started, probe).Success?
             && |bareArgs| == 0 && Parse(args).parsed.commands != []) ==>
      (o.Exited? && o.code == 0 <==>
        forall k :: 0 <= k < |Parse(args).parsed.commands| ==>
          reply(k).Some? && !IsErrorHttpStatusCode(reply(k).value))
    ensures o == Invocation(args, bareArgs, cwd, cached, started, probe, reply)
  {
    var parsed := Parse(args);
    if parsed.error.Some? {
      return Panicked(parsed.error.value, []);
    }
    var url := LaunchMainExecutable(cached, started, probe);
    if url.Failure? {
      return Panicked(url.error, []);
    }
    if |bareArgs| > 0 {
      o := OpenThenShow(bareArgs[0], reply);
    } else if |parsed.parsed.commands| == 0 {
      o := OpenThenShow(cwd, reply);
    } else {
      var r, sent := RunAllCommands(parsed.parsed.commands, reply);
      if r.Failure? {
        return Panicked(r.error, sent);
      }
      return Exited(r.value, sent);
    }
  }
}
