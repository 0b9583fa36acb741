# extraterm-launcher in Dafny

A model of the small command-line launcher of the Extraterm terminal emulator,
and proofs about it. The launcher parses its command line into a list of
commands. It finds the running main application through the `ipc.run` discovery
file, or starts it and waits for it to appear. It then sends the commands as JSON
requests to the application's local HTTP control server.

The model has three parts.

- **The argument parser** (`ArgsParser`, with its properties in
  `ArgsParserProperties`). It is a six-state machine (`ProgramName`, `Flag`,
  `WindowValue`, `CommandName`, `CommandFlag`, `CommandValue`) written as a pure
  fold over the token list. The result is the list of commands plus an optional
  error message. As in the code, the commands finished before an error are
  returned along with it.
- **The kebab-case to camelCase converter** (`WordCase`). It turns parameter
  flags such as `--working-directory` into `workingDirectory` and remaps the keys
  of a parameter map. Go's map iteration order is an explicit argument.
- **The launcher's decision logic** (`IpcRun` and `Launcher`). This covers:
  - reading `ipc.run`, with Go's `strconv.Atoi` on the process id;
  - the bounded readiness wait;
  - the choice between a cached URL and starting the executable;
  - HTTP status classification;
  - window propagation across commands and stop-at-first-failure sending;
  - the two built-in commands;
  - the dispatch in `main`.

Every outside effect is an input:
- the content of `ipc.run` and the ping answer at each look, as `probe`;
- whether the executable could be started, as `started`;
- the status of each command request, as `reply`;
- the working directory, as `cwd`.

Go's run-time panics become `Failure` results or a `Panicked` outcome.

`Strings` models the two functions of Go's `strings` package whose results the
model depends on: `Split` with a one-character separator (wordcase.go:14 and
extraterm-launcher.go:69) and `HasPrefix` (argsparser.go:83). Its `Join` and
`CountChar` are not used by the program; they exist to state what `Split` returns.
`strings.ToUpper` is modelled inside `WordCase`, on one character; `strings.NewReader`
only wraps the request body, which is left out. `Wrappers` holds `Option` and
`Result`.

## Model

| member | source | states |
|---|---|---|
| ArgsParser.MakeCommand | internal/argsparser/argsparser.go:23-25 | a fresh command has no window, no name and an empty parameter map |
| ArgsParser.Parse | internal/argsparser/argsparser.go:38-113 | every returned command has a name and only parameter keys that start with `--` and are not `--` itself; there are at most as many commands as `--` tokens plus one, and at most as many as `-c`/`--command` tokens |
| ArgsParser.FeedPreserves | internal/argsparser/argsparser.go:46-100 | the loop keeps the parser invariant: finished commands are well formed, are never removed, and grow by at most one per `--` token and per command-block token |
| ArgsParserProperties.ProgramNameConsumed | internal/argsparser/argsparser.go:49-50 | the first token is consumed whatever it is; parsing continues at top level with nothing built |
| ArgsParserProperties.ProgramNameIgnored | internal/argsparser/argsparser.go:46-112 | the program name never changes the result; an empty list and a list holding only the program name give no commands and no error |
| ArgsParserProperties.UnknownTopLevelTokenRejected | internal/argsparser/argsparser.go:52-64 | at top level any token other than `-w`, `--window`, `-c`, `--command` ends the parse with the unknown-parameter message and the commands finished so far, whatever follows |
| ArgsParserProperties.NonFlagInCommandRejected | internal/argsparser/argsparser.go:83-89 | inside a command block a token not starting with `--` ends the parse with the must-start-with-`--` message, whatever follows |
| ArgsParserProperties.EndAfterParameterFlag | internal/argsparser/argsparser.go:98-105 | input ending right after a parameter flag is an error naming the flag, and the open command is still returned |
| ArgsParserProperties.EndAfterWindowOption | internal/argsparser/argsparser.go:98-110 | input ending right after `-w` is the missing-window error, and no further command is returned |
| ArgsParserProperties.EndAfterCommandOption | internal/argsparser/argsparser.go:71-112 | input ending right after `-c` with no name is no error and adds no command |
| ArgsParserProperties.WindowAppliesToNextCommand | internal/argsparser/argsparser.go:66-100 | `-w window -c name` appends one command that has that window and name and no parameters |
| ArgsParserProperties.WindowOptionParsed | internal/argsparser/argsparser.go:55-69 | at top level a window option and its value set the window of the command being built, and parsing resumes at top level |
| ArgsParserProperties.LaterWindowWins | internal/argsparser/argsparser.go:66-69 | a second window option before the same command overwrites the first |
| ArgsParserProperties.TrailingWindowDropped | internal/argsparser/argsparser.go:66-100 | a window given at top level and not followed by `-c name` is silently dropped: the result equals that of the input without it |
| ArgsParserProperties.LastValueWins | internal/argsparser/argsparser.go:91-94 | a repeated parameter flag keeps the last value given |
| ArgsParserProperties.ParameterPairParsed | internal/argsparser/argsparser.go:83-94 | one `--flag value` pair inside a command block stores that value under the flag |
| ArgsParserProperties.CommandOptionParsed | internal/argsparser/argsparser.go:58-74 | `-c name` at top level opens a command block with that name |
| ArgsParserProperties.CommandTokensParsed | internal/argsparser/argsparser.go:55-94 | the token rendering of one well-formed command, followed by `--`, appends exactly that command and returns to top level |
| ArgsParserProperties.ParseUnparse | internal/argsparser/argsparser.go:38-113 | round trip: rendering any list of well-formed commands as tokens and parsing them gives back exactly that list, in order, with no error |
| ArgsParserProperties.FinishAtTopLevel | internal/argsparser/argsparser.go:98-112 | input ending at top level with no open command is no error and returns the finished commands |
| ArgsParserProperties.ExampleSingleCommand | internal/argsparser/argsparser_test.go:33-50 | `-c extraterm:window.listAll` gives one command with that name, no window and no parameters |
| ArgsParserProperties.ExampleCommandParameter | internal/argsparser/argsparser_test.go:52-75 | adding `--foo-bar true` gives that command the parameter `--foo-bar` with value `true` |
| ArgsParserProperties.ExampleTwoCommands | internal/argsparser/argsparser.go:66-100 | `-w 1 -c A -- -c B` gives two commands in order; only the first has window `1` at parse time |
| ArgsParserProperties.ExampleSecondCommandWithoutSeparator | internal/argsparser/argsparser.go:83-89 | a second `-c` inside a command block is rejected with the must-start-with-`--` message and no commands |
| ArgsParserProperties.ExampleWindowAfterCommand | internal/argsparser/argsparser.go:83-89 | a `-w` after the command name is rejected with the must-start-with-`--` message |
| ArgsParserProperties.ExampleBareArgument | internal/argsparser/argsparser.go:61-63 | a bare directory argument is rejected as an unknown parameter |
| Strings.SplitSpec | internal/wordcase/wordcase.go:14 | `strings.Split` gives one more piece than there are separators; no piece contains the separator; joining the pieces gives back the input |
| Strings.SplitJoin | cmd/extraterm-launcher/extraterm-launcher.go:69 | splitting the join of separator-free pieces gives back the pieces |
| Strings.SplitAtFirst | cmd/extraterm-launcher/extraterm-launcher.go:69 | splitting `a + sep + b`, with `a` free of the separator, gives `a` followed by the pieces of `b` |
| WordCase.CamelCaseReferenceSpec | internal/wordcase/wordcase.go:17-26 | the character-level description removes every `-` and shortens the input by their number |
| WordCase.KababCaseToCamelCaseSpec | internal/wordcase/wordcase.go:13-28 | the conversion drops the first two characters and agrees with the character-level description (upper-case a character exactly when a `-` precedes it); the result has no `-`, and its length is the input's minus 2 minus the number of `-` after the prefix |
| WordCase.SegmentsMatchReference | internal/wordcase/wordcase.go:14-26 | the segment loop (skip empty segments, copy segment 0, capitalise later ones) equals the character-level description |
| WordCase.JoinSegmentsLaterIndex | internal/wordcase/wordcase.go:21-24 | only whether the segment index is 0 matters to the output |
| WordCase.TwoParts | internal/wordcase/wordcase.go:13-28 | `--a-b` converts to `a` followed by `b` with its first letter upper-cased |
| WordCase.EmptyMiddlePart | internal/wordcase/wordcase.go:17-24 | an empty segment is skipped: `--a--b` converts as `--a-b` does |
| WordCase.EmptyFirstPart | internal/wordcase/wordcase.go:17-24 | capitalisation follows the segment index, so `---b` gives `b` capitalised |
| WordCase.OnePart | internal/wordcase/wordcase.go:13-14 | the first two characters are dropped whatever they are; a word with no `-` after them is copied unchanged |
| WordCase.ExampleTwoParts | internal/wordcase/wordcase.go:13-28 | `--foo-bar` converts to `fooBar` |
| WordCase.ExampleOnePart | internal/wordcase/wordcase.go:13-28 | `--foo` converts to `foo`, and `--` to the empty string |
| WordCase.ExampleEmptyMiddlePart | internal/wordcase/wordcase.go:17-24 | `--foo--bar` converts to `fooBar` |
| WordCase.ExampleEmptyFirstPart | internal/wordcase/wordcase.go:17-24 | `---foo` converts to `Foo` |
| WordCase.RemapKeysCovers | internal/wordcase/wordcase.go:5-11 | every visited key's image is a key of the result, and the result has no more entries than keys visited |
| WordCase.RemapKeysLastWriter | internal/wordcase/wordcase.go:7-9 | every result entry was written by the last visited key whose image it is, with that key's value |
| WordCase.RemapKeysInjective | internal/wordcase/wordcase.go:5-11 | under an injective key function, the result maps the image of each source key to that key's value, and holds nothing else |
| WordCase.RemapKeysOrderIrrelevant | internal/wordcase/wordcase.go:7 | under an injective key function, the iteration order does not matter |
| WordCase.KababCaseToCamelCaseMapKeysSpec | internal/wordcase/wordcase.go:5-11 | every source key's conversion is a result key; every result key is the conversion of a source key and carries its value; the result is no larger than the source; with injective conversion, `result[convert(k)] == source[k]` |
| WordCase.MapKeysOrderIrrelevant | internal/wordcase/wordcase.go:5-11 | when no two keys convert alike, the result does not depend on map iteration order |
| WordCase.CollidingKeysLastWins | internal/wordcase/wordcase.go:7-9 | two keys that convert alike leave one entry, holding the value of the key visited last |
| WordCase.CollidingKeysDependOnOrder | internal/wordcase/wordcase.go:7-9 | for colliding keys such as `--a-b` and `--aB`, the two iteration orders give different results |
| IpcRun.Atoi | cmd/extraterm-launcher/extraterm-launcher.go:70 | an accepted string is non-empty, starts with a sign or digit, has only digits after that and at least one digit, and its value lies in the 64-bit range |
| IpcRun.DecimalStringValue | cmd/extraterm-launcher/extraterm-launcher.go:70 | the decimal rendering of a number is a non-empty string of digits whose value is the number |
| IpcRun.AtoiSignedDigits | cmd/extraterm-launcher/extraterm-launcher.go:70 | conversely, an optional `+` or `-` followed by at least one digit is accepted exactly when its signed value fits in 64 bits, and then that value is the result |
| IpcRun.AtoiDecimalString | cmd/extraterm-launcher/extraterm-launcher.go:70 | every non-negative 64-bit number survives a trip through its decimal rendering |
| IpcRun.AtoiNegative | cmd/extraterm-launcher/extraterm-launcher.go:70 | a minus sign before the rendering gives the negated number, down to the 64-bit minimum |
| IpcRun.AtoiOutOfRange | cmd/extraterm-launcher/extraterm-launcher.go:70 | one past either end of the 64-bit range is rejected |
| IpcRun.AtoiRejectsMalformed | cmd/extraterm-launcher/extraterm-launcher.go:70-73 | the empty string, a lone sign, and a string with a non-digit after its first character are rejected |
| IpcRun.ReadIpcRunFileLines | cmd/extraterm-launcher/extraterm-launcher.go:63-75 | for content of two or more lines the URL is the second line when the first is an integer, and empty otherwise; later lines are ignored |
| IpcRun.ReadIpcRunFileSingleLine | cmd/extraterm-launcher/extraterm-launcher.go:69-74 | single-line content gives the empty URL when it is not an integer, and the index-out-of-range failure when it is |
| IpcRun.ReadIpcRunFileOneLine | cmd/extraterm-launcher/extraterm-launcher.go:69-74 | a URL read from the file never contains a newline |
| IpcRun.ReadWrittenIpcRun | cmd/extraterm-launcher/extraterm-launcher.go:63-75 | round trip: a file holding a process id, a newline and a URL reads back as that URL |
| Launcher.IsErrorHttpStatusCode | cmd/extraterm-launcher/extraterm-launcher.go:211-213 | a status is an error exactly when it lies outside 200..299 |
| Launcher.HttpStatusBoundaries | cmd/extraterm-launcher/extraterm-launcher.go:211-213 | 200, 204 and 299 are successes; 199, 300, 404 and 500 are errors |
| Launcher.WaitForMainExecutableToAppear | cmd/extraterm-launcher/extraterm-launcher.go:100-114 | at most 40 looks (0 to 10 s in 250 ms steps); the result agrees with the reference description `Poll`; the empty URL comes only after all 40 looks; a non-empty URL was read and pinged at the last look |
| Launcher.PollStopsAtFirstReadyLook | cmd/extraterm-launcher/extraterm-launcher.go:104-111 | a wait that does not time out stops at a look that fails or finds a pinging URL, and every earlier look found no pinging URL |
| Launcher.PollAnswersWithPingedUrl | cmd/extraterm-launcher/extraterm-launcher.go:104-108 | a non-empty URL from the readiness wait was read from `ipc.run` by one of its looks, and that look's ping succeeded |
| Launcher.PollEmptyMeansNoLookStopped | cmd/extraterm-launcher/extraterm-launcher.go:104-113 | the wait yields the empty URL exactly when no look failed or found a pinging URL |
| Launcher.LaunchMainExecutable | cmd/extraterm-launcher/extraterm-launcher.go:52-61 | a cached URL is used exactly when it is non-empty and pings; otherwise a failed start is a failure, and a successful start hands over to the readiness wait; a failure reading `ipc.run` propagates; the result agrees with the reference description `LaunchOutcome` |
| Launcher.WellFormedConvertible | cmd/extraterm-launcher/extraterm-launcher.go:193 | every parameter key the parser produces is long enough to be converted |
| Launcher.OpenWindowAtCommand | cmd/extraterm-launcher/extraterm-launcher.go:129-133 | the open-window command is well formed, like any command the parser yields |
| Launcher.ShowWindowCommand | cmd/extraterm-launcher/extraterm-launcher.go:116-119 | the show-all command is well formed, like any command the parser yields |
| Launcher.BuiltInCommandsParse | cmd/extraterm-launcher/extraterm-launcher.go:116-133 | the two built-in commands are exactly what the parser makes of `-c extraterm:window.newTerminal --working-directory path` and of `-c extraterm:window.showAll` |
| Launcher.OpenWindowPayload | cmd/extraterm-launcher/extraterm-launcher.go:189-193 | the new-terminal request names `extraterm:window.newTerminal`, has no window, and has the single argument `workingDirectory` set to the path |
| Launcher.WorkingDirectoryArgument | cmd/extraterm-launcher/extraterm-launcher.go:193 | `--working-directory` converts to `workingDirectory` |
| Launcher.ShowWindowPayload | cmd/extraterm-launcher/extraterm-launcher.go:189-193 | the show-all request names `extraterm:window.showAll` and has no window and no arguments |
| Launcher.PropagationKeepsExplicitWindows | cmd/extraterm-launcher/extraterm-launcher.go:150-157 | propagation changes only windows, and a command with its own window keeps it |
| Launcher.PropagationInheritsLatest | cmd/extraterm-launcher/extraterm-launcher.go:150-157 | a command without a window takes the window of the nearest earlier command that has one |
| Launcher.PropagationWithoutEarlierWindow | cmd/extraterm-launcher/extraterm-launcher.go:144-157 | with no explicit window up to and including a command, that command gets none |
| Launcher.PropagationIsForwardOnly | cmd/extraterm-launcher/extraterm-launcher.go:150-157 | later commands never change the windows of earlier ones |
| Launcher.LatestWindowAfter | cmd/extraterm-launcher/extraterm-launcher.go:151-153 | the remembered window is that of the last command that had one |
| Launcher.LatestWindowNone | cmd/extraterm-launcher/extraterm-launcher.go:144 | with no explicit window so far, the remembered window stays empty |
| Launcher.LaunchedUrlAnsweredPing | cmd/extraterm-launcher/extraterm-launcher.go:52-61 | a non-empty URL from the launch step is either the cached one, read from `ipc.run` with a successful ping, or, after a start, one read by one of the 40 looks whose ping succeeded |
| Launcher.LaunchGaveUpAfterAllLooks | cmd/extraterm-launcher/extraterm-launcher.go:52-114 | the launch step gives the empty URL only after a successful start, when none of the 40 looks failed or found a pinging URL |
| Launcher.RunAllCommands | cmd/extraterm-launcher/extraterm-launcher.go:143-181 | commands go out in order with windows propagated; every reply before the last one sent was a success; exit code 0 exactly when all were sent and all succeeded; 1 exactly when the last one sent got an error status; a failure exactly when its request failed; as an outcome it equals the reference `SendAll` (send in order, stop at the first failed request or error status) applied to the propagated commands |
| Launcher.OpenThenShow | cmd/extraterm-launcher/extraterm-launcher.go:33-43 | open-window is sent first; show-window is sent only when open-window succeeded; exit code 0 exactly when both succeeded; the outcome equals the reference `SendAll` on the two built-in commands in that order |
| Launcher.RunLauncher | cmd/extraterm-launcher/extraterm-launcher.go:24-49 | a parse error panics before anything is sent; with a bare argument the first one is the directory and the parsed commands are ignored; with no commands the working directory is used; otherwise the parsed commands run with windows propagated; a failed launch step panics before anything is sent, a successful one always sends something; the exit code is 0 or 1, and 0 exactly when every request of the chosen flow succeeded; the outcome equals the reference `Invocation`, which picks the flow and then applies `SendAll` to it |

## Left out

- HTTP: `ping` and the `http.Post` in `runCommand` (extraterm-launcher.go:189-223) are oracles. `probe(k).pong` stands for "the GET of `url/ping` answered 200 with body `pong`". `reply(k)` is the status of the `k`-th request, or `None` when the request or reading its body failed.
- JSON marshalling of `CommandJson`: the model builds the payload record, not its bytes.
- Process start and environment in `runMainExecutable` (`os.Executable`, `exec.Command`, the settings lookups) become the input `started`. `time.Sleep`, `os.ReadFile` and `os.Getwd` become the inputs `probe` and `cwd`.
- `readIpcRunFile` ignores its path argument (extraterm-launcher.go:64); the model takes only the file content.
- internal/settings/*.go is not part of this model. It holds OS path and environment lookups and constants.
- Output on stdout and stderr is not modelled: the JSON bodies printed by `runAllCommands` and the built-in commands, and the brackets around them. The closing bracket is printed as `[` as well (extraterm-launcher.go:163,178), so the output is not a well-formed JSON array.
- `os.Stdout.Sync` and `os.Exit`: `RunLauncher` returns the exit code in its outcome.
- BareArgs: `main` reads `parsedArgs.BareArgs` (extraterm-launcher.go:33), which the parser in argsparser.go does not have. `RunLauncher` takes it as an input of its own.
- Parser tests: argsparser_test.go:12-31, 77-103 and 105-119 expect inputs to succeed that `argsparser.go` rejects (a `-w` or second `-c` inside a command block, a bare argument). The model follows the code. `ExampleWindowAfterCommand`, `ExampleSecondCommandWithoutSeparator` and `ExampleBareArgument` state what the code does on those inputs.
- `main` tests `len(errorString)` on a `*string` (extraterm-launcher.go:26). The model reads it as "an error was returned".
- Atoi: models `strconv.Atoi` for a 64-bit `int` only.
- WordCase.KababCaseToCamelCase: requires at least two characters. Go's `word[2:]` panics on shorter words, and every key the parser produces starts with `--`.
- WordCase.ToUpperAscii: upper-cases only `a`..`z`. For a multibyte first character, `strings.ToUpper(part[0:1])` on a partial byte sequence is not modelled.
- WordCase.ConvertKey: leaves a key shorter than two characters unchanged, where Go would panic. Such keys never reach it: `WellFormedConvertible` shows that parsed commands have none.
- Launcher.Ping: a request to the empty URL has no scheme and always fails. This is stated as part of the model rather than derived from `net/http`.
- Launcher.RunLauncher: after a readiness time-out the empty URL is used for the requests anyway, as in the code. Their failures come from the `reply` oracle.
- Panics (`panic(errorString)`, a failed start, a failed request, indexing a missing second line of `ipc.run`) become `Failure` results or the `Panicked` outcome. Their messages are not Go's.
- The readiness wait does not abort when the main application never answers. As in the code, it returns the empty URL after 40 looks and the launcher carries on.
