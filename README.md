# peared, modelled in Dafny

peared is a Bluetooth helper for Linux written in Go. These files model its deciding logic and prove what it guarantees:

- **Adapters** (`adapter.dfy`, module `Adapters`): choosing an adapter. `Adapter.Matches` compares a trimmed identifier, ignoring case, with an adapter's ID, address and alias. `SelectAdapter` takes the first match, else the first USB adapter, else the first adapter.
- **Sysfs** (`adapter_sysfs.dfy`): discovering adapters under `/sys/class/bluetooth`. Each `hci*` directory or symlink is one adapter. Its optional files give the address, alias, power state and transport. The context is polled before each entry, and a permission failure on the root becomes an `AdapterAccessError`.
- **Bluetoothctl** (`runner.dfy`): the runner, as a class whose fields the options and `NewRunner` update. It covers:
  - the lookup of bluetoothctl and sudo;
  - the sudo default, taken from the effective user id;
  - the refusal to escalate without sudo;
  - the exact program and argument vector `exec` hands to the command primitive (`[sudo] bluetoothctl [--adapter <id>] <args>`);
  - the `CommandError` a failure returns.
- **Daemon** (`daemon.dfy`): a class with an optional active adapter that `refreshAdapters` sets from `SelectAdapter`, and `Run`, which maps the context's cause to its result.
- **Cli** (`shell.dfy`): the interactive shell, as a class with a single-shot `closed` flag and an output buffer. Its loop runs over a scripted sequence of input events. The welcome line comes first and a prompt precedes every wait. Commands are dispatched on the trimmed, lower-cased line, and each way the loop can end is reported.
- **Config** (`config.dfy`): where the configuration file is looked for, and what `Load` returns when the file is missing, decodes, or fails.
- **Peared** (`peared_main.dfy`): the logic of the `peared` command:
  - how the adapter is determined;
  - the runner options assembled from it;
  - `formatDuration` rounding and `parseLevel`;
  - the error report of a failed device command;
  - the output of `peared adapters list`.

Support modules:

- `Errors` (`errors.dfy`): Go errors as a datatype, with `Unwrap`, `errors.Is`, `errors.As` and `Error()`.
- `Host` (`host.dfy`): what the operating system answers, as plain data, plus `context.Context` and `time.Duration`.
- `Text` (`text.dfy`): the `strings` functions used, including `TrimSpace`, `ToLower`, `EqualFold`, `Split` and decimal formatting.
- `Wrappers` (`wrappers.dfy`): `Option` and `Result`.

The runner targets an adapter only by putting `--adapter <id>` in front of each command's arguments (internal/bluetoothctl/runner.go:198-200).

## Model

| member | source | states |
|---|---|---|
| Errors.Unwrap | internal/bluetoothctl/runner.go:238-240 | A CommandError and an AdapterAccessError unwrap to their cause; sentinels and plain errors unwrap to nothing; unwrapping always reaches a smaller error. |
| Errors.IsThroughChain | internal/daemon/daemon.go:123 | errors.Is sees through every layer of `%w` wrapping: whatever a cause matches, its wrapper matches too. |
| Errors.SentinelsDistinct | internal/daemon/adapter_sysfs.go:54 | An error that wraps nothing matches only itself under errors.Is. |
| Errors.AsCommandError | cmd/peared/main.go:388-389 | errors.As finds a CommandError that errors.Is also matches, finds the error itself when it is one, and finds none only when no CommandError is on the chain. |
| Errors.CommandErrorMessage | internal/bluetoothctl/runner.go:233-235 | The message is "bluetoothctl <args joined by spaces> failed: " followed by the cause's message; the captured output never changes the message. |
| Host.PollErr | internal/daemon/adapter_sysfs.go:62-64 | ctx.Err() reports an error exactly from the poll at which the context becomes done onward, and that error is the context's own. |
| Host.Cause | internal/daemon/daemon.go:94 | context.Cause is the recorded cause when there is one, and the context's error otherwise. |
| Host.LookPath | internal/bluetoothctl/runner.go:97-107 | exec.LookPath returns the path found in an absolute PATH directory; it fails with an error matching exec.ErrDot (and not exec.ErrNotFound) when the executable is found only relative to the current directory, and with one matching exec.ErrNotFound (and not exec.ErrDot) when it is not found. |
| Text.TrimSpaceIsInfix | internal/daemon/adapter_sysfs.go:131 | TrimSpace removes only whitespace, and only from the two ends: the input is whitespace, the result, whitespace. |
| Text.TrimSpaceIdempotent | internal/daemon/adapter.go:48 | Trimming a trimmed string changes nothing. |
| Text.TrimSpaceOfPadded | internal/daemon/adapter.go:77 | Whitespace added around a string does not change its trimmed form. |
| Text.ToLowerTrimSpace | internal/daemon/adapter.go:53-63 | Lower-casing and trimming commute. |
| Text.ToLowerIdempotent | internal/cli/shell.go:116 | Lower-casing twice is lower-casing once. |
| Text.DecimalRoundTrip | internal/bluetoothctl/runner.go:144 | The `%d` form of a count reads back as that count. |
| Text.SplitAfterField | cmd/peared/main.go:439 | A separator-free field followed by the separator splits off as the first piece, and the rest splits on its own. |
| Text.TrimSpace | internal/daemon/adapter.go:48 | The trimmed string is no longer than the input, and is empty or begins and ends with a non-space. |
| Text.ToLower | internal/daemon/adapter.go:53 | Lower-casing keeps the length and maps each character on its own. |
| Text.DecimalInjective | internal/bluetoothctl/runner.go:144 | Different counts print as different decimal strings. |
| Text.SplitNoSeparator | cmd/peared/main.go:439 | A string without the separator splits into itself alone. |
| Adapters.Matches | internal/daemon/adapter.go:47-51 | An identifier that is blank after trimming matches no adapter, whatever its fields. |
| Adapters.MatchesIffFieldEqual | internal/daemon/adapter.go:47-66 | Matches holds exactly when the trimmed identifier is non-blank and, lower-cased, equals the lower-cased ID, address or alias. |
| Adapters.MatchesIgnoresCase | internal/daemon/adapter.go:53-63 | The identifier's letter case never changes whether it matches. |
| Adapters.MatchesIgnoresPadding | internal/daemon/adapter.go:48 | Whitespace around the identifier never changes whether it matches. |
| Adapters.SameFoldSameMatch | internal/daemon/adapter.go:47-66 | Two identifiers with the same trimmed, lower-cased form match the same adapters. |
| Adapters.MatchesTrimmed | internal/daemon/adapter.go:48 | Trimming the identifier first does not change what it matches. |
| Adapters.FirstMatch | internal/daemon/adapter.go:78-82 | The position the search returns is inside the list. |
| Adapters.FirstMatchFound | internal/daemon/adapter.go:78-82 | The adapter at the returned position matches, and no adapter before it does. |
| Adapters.FirstMatchNone | internal/daemon/adapter.go:78-82 | The search finds nothing only when no adapter matches. |
| Adapters.FirstMatchAt | internal/daemon/adapter.go:78-82 | The position of the first matching adapter is the one the search returns. |
| Adapters.FirstMatchAbsent | internal/daemon/adapter.go:78-82 | When no adapter matches, the search finds nothing. |
| Adapters.FirstUsb | internal/daemon/adapter.go:85-89 | The position the USB search returns holds a USB adapter. |
| Adapters.FirstUsbAt | internal/daemon/adapter.go:85-89 | The position of the first USB adapter is the one the search returns. |
| Adapters.FirstUsbAbsent | internal/daemon/adapter.go:85-89 | Without a USB adapter the search finds nothing. |
| Adapters.SelectAdapter | internal/daemon/adapter.go:72-92 | The result is the "no adapters supplied" error exactly for an empty list; for any other list it succeeds with an element of the list. |
| Adapters.SelectPrefersMatch | internal/daemon/adapter.go:77-83 | When some adapter matches the preference, the first matching adapter is chosen, whatever the transports are. |
| Adapters.SelectWithoutMatch | internal/daemon/adapter.go:77-91 | When no adapter matches the preference (or it is blank), the choice is the transport rule: the first USB adapter, else the first adapter. |
| Adapters.SelectFallsBackToUsb | internal/daemon/adapter.go:85-89 | With no match, the first USB adapter is chosen. |
| Adapters.SelectFallsBackToFirst | internal/daemon/adapter.go:91 | With no match and no USB adapter, the first adapter is chosen. |
| Adapters.SelectIgnoresPadding | internal/daemon/adapter.go:77 | Whitespace around the preference never changes the choice. |
| Adapters.SelectIgnoresCase | internal/daemon/adapter.go:77-83 | The letter case of the preference never changes the choice. |
| Adapters.LowerTrimmedBlank | internal/daemon/adapter.go:77 | Lower-casing the preference does not change whether it is blank after trimming. |
| Adapters.LowerTrimmedMatches | internal/daemon/adapter.go:77-83 | The trimmed lower-cased preference matches the same adapters as the trimmed preference. |
| Adapters.SelectDependsOnMatches | internal/daemon/adapter.go:72-92 | Two preferences that are blank together and match the same adapters choose the same adapter. |
| Adapters.SameMatchesSameFirst | internal/daemon/adapter.go:78-82 | Identifiers matching the same adapters give the same first match. |
| Sysfs.NewSysfsAdapterProvider | internal/daemon/adapter_sysfs.go:26-32 | An empty path means /sys/class/bluetooth; any other path is kept; the root is never empty. |
| Sysfs.DefaultAdapterProvider | internal/daemon/adapter_sysfs.go:19-21 | The default provider is the one an empty path gives. |
| Sysfs.ReadTrimmedFile | internal/daemon/adapter_sysfs.go:125-132 | A file that cannot be read reads as "". |
| Sysfs.ReadTrimmedFileIsTrimmed | internal/daemon/adapter_sysfs.go:125-132 | What is returned has no whitespace left to trim. |
| Sysfs.ParseBoolIff | internal/daemon/adapter_sysfs.go:134-145 | parseBool is true exactly for "1", "true", "on", "yes" or "y" in any letter case; "" and everything else are false. |
| Sysfs.ModaliasWins | internal/daemon/adapter_sysfs.go:95-106 | A recognised modalias prefix decides the transport, whatever the device symlink points at. |
| Sysfs.TransportFallback | internal/daemon/adapter_sysfs.go:108-122 | Without a recognised modalias, the symlink target decides, and the transport is unknown exactly when neither names a bus. |
| Sysfs.TargetPatternOrder | internal/daemon/adapter_sysfs.go:111-119 | "/usb" is checked before "/pci" and both before "/platform" or "/acpi", so a target containing both "/pci" and "/usb" is USB. |
| Sysfs.ModaliasIgnoresCase | internal/daemon/adapter_sysfs.go:97-104 | Upper case in a modalias does not change the transport. |
| Sysfs.AdapterEntries | internal/daemon/adapter_sysfs.go:66-74 | The filter never yields more entries than it was given. |
| Sysfs.AdapterEntriesMembers | internal/daemon/adapter_sysfs.go:66-74 | An entry is kept exactly when it is a directory or symlink whose name starts with "hci". |
| Sysfs.AdapterEntriesOfConcat | internal/daemon/adapter_sysfs.go:61-88 | Filtering keeps directory order. |
| Sysfs.AdapterFor | internal/daemon/adapter_sysfs.go:75-88 | The adapter's ID is the entry's name. |
| Sysfs.MissingFilesGiveDefaults | internal/daemon/adapter_sysfs.go:77-80 | Missing files give an empty address and alias, an unpowered radio and an unknown transport. |
| Sysfs.AdapterNames | internal/daemon/adapter_sysfs.go:71 | The names are those of the adapter entries, one for one and in order. |
| Sysfs.AdapterNamesSnoc | internal/daemon/adapter_sysfs.go:61-74 | One more entry adds its name exactly when it is an adapter entry. |
| Sysfs.Describe | internal/daemon/adapter_sysfs.go:82-88 | One adapter per name, in order, each with that name as its ID. |
| Sysfs.DescribeSnoc | internal/daemon/adapter_sysfs.go:82-88 | One more name adds its adapter at the end. |
| Sysfs.DiscoveredSnoc | internal/daemon/adapter_sysfs.go:61-88 | One more entry adds its adapter when it is an adapter entry, and nothing otherwise. |
| Sysfs.ReadAdapter | internal/daemon/adapter_sysfs.go:75-88 | The loop body builds the adapter the files under <root>/<name> describe. |
| Sysfs.ListAdapters | internal/daemon/adapter_sysfs.go:47-92 | The loop's adapters and error are exactly the listing: adapter entries in order, the context's error at the first poll that sees it done, no adapters with any error. |
| Sysfs.ListingNilContext | internal/daemon/adapter_sysfs.go:48-50 | A nil context is refused before any read. |
| Sysfs.ListingRootFailure | internal/daemon/adapter_sysfs.go:52-58 | A permission failure on the root is an AdapterAccessError for that root that unwraps to the failure and still matches fs.ErrPermission; any other failure is wrapped generically. |
| Sysfs.ListingFailsOnlyFor | internal/daemon/adapter_sysfs.go:47-92 | Discovery fails exactly for a nil context, an unreadable root, or a context done before the last entry; the per-adapter files never cause an error. |
| Sysfs.ListingCancellation | internal/daemon/adapter_sysfs.go:61-64 | A context already done at the first poll fails a non-empty listing with the context's error; an empty directory is never polled and lists no adapters. |
| Sysfs.ListingAdapters | internal/daemon/adapter_sysfs.go:61-88 | A successful listing has one adapter per hci* directory or symlink, in order, each with ID equal to the entry's name. |
| Daemon.RefreshChoosesSelection | internal/daemon/daemon.go:130-143 | A successful refresh chooses SelectAdapter's answer over the listed adapters, and that answer is one of them. |
| Daemon.RefreshErrors | internal/daemon/daemon.go:116-133 | A refresh fails exactly when the provider is missing or the listing fails or is empty; a listing error is wrapped so errors.Is still finds its cause; an empty listing is "no adapters discovered". |
| Daemon.RunNilContext | internal/daemon/daemon.go:73-75 | A nil context returns an error. |
| Daemon.RunReturnsRefreshError | internal/daemon/daemon.go:77-81 | A refresh error is returned before Run waits on the context. |
| Daemon.RunMapsCause | internal/daemon/daemon.go:92-100 | After a good refresh, Run never returns while the context stays live, returns nil when the cause is (or wraps) context.Canceled, and returns the cause otherwise. |
| Daemon.RunCancellationScenarios | internal/daemon/daemon_test.go:21-72 | A plainly cancelled context ends Run with nil; one cancelled with a cause ends it with exactly that cause. |
| Daemon.Daemon.New | internal/daemon/daemon.go:47-67 | New always succeeds, keeps the options, substitutes the default sysfs provider when none is given, and starts with no active adapter. |
| Daemon.Daemon.ActiveAdapter | internal/daemon/daemon.go:104-114 | Reports a copy of the active adapter and true, or the zero adapter and false. |
| Daemon.Daemon.RefreshAdapters | internal/daemon/daemon.go:116-146 | Succeeds exactly when the refresh does, setting the active adapter to its choice; on failure it returns the refresh's error and leaves the active adapter as it was. |
| Daemon.Daemon.Run | internal/daemon/daemon.go:72-101 | The exit is the cause mapping proved for RunResult (nil context, refresh error, blocked, nil on cancellation, the cause otherwise); the active adapter changes exactly when the refresh succeeds. |
| Daemon.ActiveAdapterLifecycle | internal/daemon/daemon.go:104-143 | Before any refresh there is no active adapter; after a successful one ActiveAdapter reports the chosen adapter, after a failed one the zero adapter and false. |
| Bluetoothctl.AppliedAllUseSudoUnset | internal/bluetoothctl/runner.go:61-66 | Only WithUseSudo touches UseSudo, so while its flag is unset UseSudo is false. |
| Bluetoothctl.OthersKeepUseSudo | internal/bluetoothctl/runner.go:46-80 | Options other than WithUseSudo leave UseSudo and its flag alone. |
| Bluetoothctl.AppliedAllConcat | internal/bluetoothctl/runner.go:90-94 | Applying a concatenation of options applies its parts in turn. |
| Bluetoothctl.AppliedAllOne | internal/bluetoothctl/runner.go:90-94 | No options leave the fields alone; one option is applied once. |
| Bluetoothctl.LastUseSudoWins | internal/bluetoothctl/runner.go:61-114 | The last WithUseSudo value decides UseSudo, whatever came before and whatever the effective user id. |
| Bluetoothctl.LastUseSudoSets | internal/bluetoothctl/runner.go:61-66 | After the last WithUseSudo, UseSudo is marked set and holds its value. |
| Bluetoothctl.UseSudoFollowsEuid | internal/bluetoothctl/runner.go:110-114 | Without WithUseSudo, a constructed runner uses sudo exactly when the effective user is not root. |
| Bluetoothctl.ResolveUseSudo | internal/bluetoothctl/runner.go:110-114 | A set flag keeps UseSudo; an unset one turns it on for a non-root user. |
| Bluetoothctl.BinaryResolution | internal/bluetoothctl/runner.go:96-102 | An explicit binary skips the lookup: the outcome does not depend on where PATH finds bluetoothctl, it can only fail for a missing sudo, and it keeps the binary. With no binary, the looked-up path is used, and a failed lookup fails construction with the lookup error wrapped as "locate bluetoothctl". That error matches exec.ErrNotFound when bluetoothctl is not on PATH, and matches exec.ErrDot, not ErrNotFound, when it is found only in a relative directory. |
| Bluetoothctl.SudoResolution | internal/bluetoothctl/runner.go:104-108 | A sudo path given by option, even "", is kept; otherwise an empty path is filled from the lookup. |
| Bluetoothctl.SudoMissingIff | internal/bluetoothctl/runner.go:116-122 | Construction fails with "sudo binary not found…" exactly when the final UseSudo is true and the sudo path is empty; without WithCommandRunner the system primitive is used. |
| Bluetoothctl.ResolvedIsUsable | internal/bluetoothctl/runner.go:96-124 | A constructed runner has a binary (unless the lookup itself answered ""), never escalates without a sudo path, and always has a command primitive. |
| Bluetoothctl.AdapterPrefix | internal/bluetoothctl/runner.go:198-200 | The prefix is absent exactly for an empty adapter, and otherwise is `--adapter` followed by the adapter. |
| Bluetoothctl.CommandLineRoundTrip | internal/bluetoothctl/runner.go:198-210 | The operation's arguments are what follows the sudo and adapter prefixes. The program is the sudo path when escalating, else the binary, and an escalated argv starts with the binary. |
| Bluetoothctl.ExecFailure | internal/bluetoothctl/runner.go:211-216 | A failing primitive gives "" and a CommandError that errors.As finds, whose Output is exactly the primitive's output and whose Args have no prefixes. It unwraps to the cause and matches it. |
| Bluetoothctl.ScanSeconds | internal/bluetoothctl/runner.go:135-142 | A non-positive duration scans 15 seconds; otherwise the whole seconds in it, at least one. |
| Bluetoothctl.ScanArguments | internal/bluetoothctl/runner.go:144-145 | Scan passes `--timeout <n> scan on`, where n reads back as the scan window, and the prefixes leave these arguments intact. |
| Bluetoothctl.DeviceRefusal | internal/bluetoothctl/runner.go:171-179 | A nil context or a blank address fails with output "" and the same answer whatever the primitive would reply, so it is never consulted. |
| Bluetoothctl.DeviceInvocation | internal/bluetoothctl/runner.go:176-187 | Otherwise the arguments are the command and the trimmed address; success returns the output trimmed, failure the CommandError. |
| Bluetoothctl.SudoSettings | internal/bluetoothctl/runner_test.go:11-27 | The options of the sudo scan test give a runner set up for bluetoothctl through sudo. |
| Bluetoothctl.ScanThroughSudo | internal/bluetoothctl/runner_test.go:11-51 | With sudo configured, a three-second scan runs `sudo bluetoothctl --timeout 3 scan on` and returns the printed line without its newline. |
| Bluetoothctl.SudoScanCommandLine | internal/bluetoothctl/runner_test.go:38-50 | The sudo runner hands exactly that program and argv to the primitive. |
| Bluetoothctl.ScanArgsThreeSeconds | internal/bluetoothctl/runner.go:139-144 | Three seconds give the arguments `--timeout 3 scan on`. |
| Bluetoothctl.ScanTrimsReply | internal/bluetoothctl/runner.go:145-150 | A scan whose command succeeds returns the reply trimmed. |
| Bluetoothctl.DirectSettings | internal/bluetoothctl/runner_test.go:53-81 | The options of the pair test give a runner that runs bluetoothctl itself. |
| Bluetoothctl.PairFailureKeepsOutput | internal/bluetoothctl/runner_test.go:53-81 | A failing pair runs bluetoothctl directly and reports a CommandError with exactly the printed output. |
| Bluetoothctl.NonRootWithoutSudoFails | internal/bluetoothctl/runner_test.go:147-166 | A non-root user who suppresses the sudo lookup cannot build a runner, and the error says "sudo binary not found". |
| Bluetoothctl.SudoFoundOnlyRelative | internal/bluetoothctl/runner.go:104-118 | A sudo that PATH finds only in a relative directory is treated as not found, so a non-root user without a sudo option gets the "sudo binary not found" error. |
| Bluetoothctl.Runner.Empty | internal/bluetoothctl/runner.go:88 | A new runner has every field unset. |
| Bluetoothctl.Runner.Apply | internal/bluetoothctl/runner.go:46-80 | Calling one option updates exactly the fields it names. |
| Bluetoothctl.Runner.ResolveFields | internal/bluetoothctl/runner.go:96-124 | The lookups, default and refusal update the fields to the resolved settings, or return the resolution's error. |
| Bluetoothctl.Runner.Exec | internal/bluetoothctl/runner.go:190-217 | The appended argv and the reply handling give exactly the exec outcome over the runner's fields. |
| Bluetoothctl.Runner.Scan | internal/bluetoothctl/runner.go:130-151 | The reassigned duration and seconds give exactly the scan outcome. |
| Bluetoothctl.Runner.SimpleDeviceCommand | internal/bluetoothctl/runner.go:171-188 | The device command's outcome, with its refusals. |
| Bluetoothctl.Runner.Pair | internal/bluetoothctl/runner.go:155-157 | Pair is the device command "pair". |
| Bluetoothctl.Runner.Connect | internal/bluetoothctl/runner.go:161-163 | Connect is the device command "connect". |
| Bluetoothctl.Runner.Disconnect | internal/bluetoothctl/runner.go:167-169 | Disconnect is the device command "disconnect". |
| Bluetoothctl.NewRunner | internal/bluetoothctl/runner.go:87-125 | Applies the non-nil options in order and resolves; it succeeds exactly when resolution does, with a fresh runner holding the resolved fields, and otherwise returns nil and the error. |
| Cli.PromptIsLastWithPrompt | internal/cli/shell.go:36-50 | The last non-nil WithPrompt decides the prompt; nil options alone keep the starting prompt. |
| Cli.RespondCases | internal/cli/shell.go:115-127 | Only "exit" and "quit" (any case) leave; "" and "#" answer nothing; any other non-help command is echoed as "Unknown command: <trimmed text>". |
| Cli.LoopStep | internal/cli/shell.go:88-129 | Each turn writes the prompt and the answer to one event, and either returns or continues with the next event. |
| Cli.ServeTurn | internal/cli/shell.go:88-129 | One turn of the loop, seen from the text already written, completes the transcript or leaves the rest to the remaining events. |
| Cli.LoopStartsWithPrompt | internal/cli/shell.go:89 | The loop's output starts with the prompt. |
| Cli.WaitingEndsWithPrompt | internal/cli/shell.go:89-91 | A shell still waiting has just written its prompt. |
| Cli.LoopIgnoresLaterEvents | internal/cli/shell.go:88-129 | Once the loop has returned, later events are never looked at. |
| Cli.CancellationResult | internal/cli/shell.go:92-97 | Cancellation returns the recorded cause if there is one, else the context's error (context.Canceled). |
| Cli.ReadErrorResult | internal/cli/shell.go:105-113 | EOF prints a newline and returns nil; any other read error is returned; a line read with an error is never dispatched. |
| Cli.ReaderEventsOfTwoLines | internal/cli/shell.go:75 | Two newline-terminated lines are read as those lines, then an empty read with EOF. |
| Cli.TrimLine | internal/cli/shell.go:115 | A command word read with its newline trims back to the word. |
| Cli.CommandThenExit | internal/cli/shell_test.go:13-47 | A command then "exit" writes the prompt and answer, then the prompt and "Goodbye!", and returns nil. |
| Cli.ExitLine | internal/cli/shell.go:119-122 | An "exit" line says goodbye and ends the loop. |
| Cli.HelpThenExit | internal/cli/shell_test.go:13-32 | "help\nexit\n" writes the help text, then goodbye, without an error. |
| Cli.UnknownThenExit | internal/cli/shell_test.go:34-47 | "foo\nexit\n" writes "Unknown command: foo", then goodbye. |
| Cli.Shell.NewShell | internal/cli/shell.go:36-50 | A new shell has the default prompt with the options applied in order, is open and has written nothing. |
| Cli.Shell.WriteHelp | internal/cli/shell.go:132-137 | Appends the four help lines. |
| Cli.Shell.Dispatch | internal/cli/shell.go:115-127 | Appends the command's answer, or "Goodbye!" and reports that the loop returns. |
| Cli.Shell.Answer | internal/cli/shell.go:91-128 | Appends the answer to one event; exactly a returning answer closes the shell. |
| Cli.Shell.Run | internal/cli/shell.go:55-130 | A nil context and a closed shell are refused, without output. Otherwise the output is the welcome line followed by the loop's transcript, and the shell is closed exactly when the loop returned. |
| Cli.Shell.Serve | internal/cli/shell.go:88-129 | The loop appends the prompt and the answer of each event until one returns, then reports how it ended. |
| Cli.RunTwice | internal/cli/shell_test.go:77-89 | A shell that has finished once refuses a second run with "shell already closed". |
| Config.ResolvePath | internal/config/config.go:31-46 | A successfully resolved path is never empty. |
| Config.ResolvePrecedence | internal/config/config.go:31-46 | The explicit path, else $PEARED_CONFIG, else <config dir>/peared/config.yaml. Resolution fails only when all three are missing, and then errors.Is still finds the config-dir error. |
| Config.Load | internal/config/config.go:49-72 | The step-by-step config building returns exactly the load result: a config and no error, or an error and no config. |
| Config.LoadMissingFile | internal/config/config.go:55-61 | A missing file gives the defaults, not loaded, with the resolved path as source and no error. |
| Config.LoadOutcomes | internal/config/config.go:62-71 | A config is loaded exactly when the file was read and decoded, and then holds the decoded section; its source is always the resolved path; other read errors are errors that errors.Is matches to their cause. |
| Peared.OverrideWins | cmd/peared/main.go:360-362 | A non-blank override is returned untrimmed, whatever config, host and context are. |
| Peared.DetermineFromDiscovery | cmd/peared/main.go:364-384 | Without an override, empty discovery is "no adapters detected", and otherwise the ID of SelectAdapter's choice for the configured preference, which is an hci* entry. |
| Peared.DetermineErrors | cmd/peared/main.go:364-373 | A config or discovery failure is wrapped with its step, and still answers errors.Is for its cause. |
| Peared.RunnerOptions | cmd/peared/main.go:337-349 | WithUseSudo(false) is present exactly when sudo is disabled, WithAdapter exactly when the adapter is non-empty, and nothing else. |
| Peared.RunnerOptionsSettings | cmd/peared/main.go:337-349 | The options set UseSudo false and marked set exactly when sudo is disabled, and the trimmed adapter. |
| Peared.RunnerOptionsEffect | cmd/peared/main.go:336-357 | The runner uses sudo exactly when sudo is not disabled and the user is not root; its adapter is the trimmed adapter. |
| Peared.NewBluetoothRunner | cmd/peared/main.go:336-357 | A failed determination is wrapped as "determine adapter"; otherwise the runner is NewRunner's over the assembled options, returned with the adapter. |
| Peared.BuildRunner | cmd/peared/main.go:337-351 | Appending the options one by one gives the assembled options, and the result is NewRunner's. |
| Peared.RoundToSecond | cmd/peared/main.go:328 | Duration.Round(time.Second) gives a whole number of seconds within half a second of d, with halves rounded away from zero, unless it saturates. |
| Peared.FormatDurationRounds | cmd/peared/main.go:323-334 | d <= 0 prints 0s; a positive d prints as at least 1s, rounded to the nearest second; whole seconds print as themselves. |
| Peared.ParseLevelSpellings | cmd/peared/main.go:86-101 | "debug" is debug, "warn"/"warning" warn, "error"/"err" error, in any case; everything else is info. |
| Peared.DeviceCommandErrorLayout | cmd/peared/main.go:387-396 | The failure line always comes last; the trimmed CommandError output comes before it exactly when it is non-blank, as the first line when it is one line. |
| Peared.ShownAlias | cmd/peared/main.go:434-437 | An empty alias shows as "(no alias)", any other as itself. |
| Peared.RowFields | cmd/peared/main.go:428-440 | A row splits at tabs into ID, address, shown alias and "on"/"off", and its fourth field is "on" exactly for a powered adapter. |
| Peared.SplitFourFields | cmd/peared/main.go:439 | Four tab-free fields joined by tabs split back into the four. |
| Peared.RowLines | cmd/peared/main.go:428-440 | One line per adapter, in order. |
| Peared.RowsLines | cmd/peared/main.go:428-440 | The printed rows split at newlines into each adapter's row, in order, and a final empty piece. |
| Peared.SplitConcatLine | cmd/peared/main.go:439 | Printing one more newline-terminated line adds one piece before the final empty one. |
| Peared.ReportPermission | cmd/peared/main.go:411-418 | A permission failure prints the hint naming the --sysfs root, or the default root. |
| Peared.ListAdapters | cmd/peared/main.go:398-441 | Standard output, standard error and the failure flag are the report of the sysfs listing of the --sysfs root (or the default root) under a background context. |
| Peared.ReportListing | cmd/peared/main.go:410-441 | The printing half prints the hint, the error, the empty notice or the rows. |
| Peared.PrintRows | cmd/peared/main.go:428-440 | The row loop prints the rows of all adapters, in order. |
| Peared.FormatRow | cmd/peared/main.go:429-439 | The reassigned power word and alias give the row line. |
| Peared.RowsExtend | cmd/peared/main.go:428-440 | The rows of one more adapter add its line. |
| Peared.ListAdaptersRootFailure | cmd/peared/main.go:410-421 | An unreadable root fails with nothing on standard output: the permission hint for that root, or "failed to list adapters: " and the error. |
| Peared.NotExistLine | internal/daemon/adapter_sysfs.go:57 | A root that fails with ENOENT is reported as "failed to list adapters: <context>: <op> <path>: no such file or directory", each wrapper adding its own text in front of its cause's. |
| Peared.ListAdaptersWithoutBluetooth | cmd/peared/main.go:405-421 | Without --sysfs and without /sys/class/bluetooth, the command fails, prints nothing on standard output and prints exactly "failed to list adapters: read sysfs adapters: open /sys/class/bluetooth: no such file or directory" on standard error. |
| Peared.ListAdaptersPrintsRows | cmd/peared/main.go:423-440 | A successful listing does not fail and prints only "No adapters detected." when empty, else one row per adapter in order. |

## Left out

- Processes, files, directories, symlinks, the environment, the user config directory, PATH lookup and the effective user id: these are the data of `Host.Host`. For each executable name the host records whether a PATH search finds it in an absolute directory or only in a relative one (`Host.Lookup`); the `execerrdot` GODEBUG setting, which turns exec.ErrDot off, is not modelled. The command primitive is data too (`Bluetoothctl.Primitive`: a reply per invocation and a default reply). Starting processes and killing them on cancellation are not modelled. os.ReadDir returns directory entries sorted by file name; the host may list them in any order, so the "directory order" the discovery and listing lemmas speak of covers name order as a special case, and name order itself is not stated.
- The context passed to the command primitive is not modelled: the primitive's reply does not depend on it.
- YAML decoding: `Config.Load` takes the decoder as a function parameter, standing for `yaml.Unmarshal` into the daemon section.
- Concurrency: the shell's reader goroutine and input channel become a scripted sequence of events, in the order the loop receives them. The script, not the context, decides when a `Cancelled` event arrives, so the model also admits a cancellation under a context that is never done (more behaviours than the program has, never fewer). Also left out are the `atomic.Bool` (a plain field here, so nothing is claimed about concurrent `Run` calls), the daemon's `sync.RWMutex`, the blocking `<-ctx.Done()` (a context that is never done is `Blocked`) and the scan progress ticker.
- Text.ToLower: ASCII only; Go's `strings.ToLower` also maps non-ASCII letters.
- Text.EqualFold: compares ASCII lower-case forms; Go's version uses Unicode simple folding.
- Text.TrimSpace: strings are sequences of characters, so the handling of invalid UTF-8 bytes is not modelled.
- Host.JoinPath: joins with "/" and does not clean the path as `filepath.Join` does.
- Peared.FormatDuration: returns the duration to be printed; `Duration.String`'s text form is not modelled.
- Config.Quoted: approximates `%q` by surrounding quotes; escaping of quotes, backslashes and control characters is not modelled.
- Logging (`slog`), including `Run`'s start and stop lines and the active-adapter summary it logs (internal/daemon/daemon.go:83-91); `parseLevel` is modelled, the logger it configures is not.
- Flag parsing, usage text, `os.Exit` codes, signal handling and the command dispatch switches of cmd/peared/main.go, and the way each device subcommand prints its output.
- cmd/pearedd/main.go is not part of this model: it only wires the daemon, and its `parseLevel` duplicates the modelled one.
- `promptAdapterSelection`, which cmd/peared/main_test.go calls, does not exist in cmd/peared/main.go and is not modelled.
- The `context.Canceled` fallback of the shell (internal/cli/shell.go:97) cannot be reached, since context.Cause of a done context is never nil; the model returns the cause.
- Runner options are a datatype rather than closures; `WithCommandRunner(nil)` is not modelled, and a nil option is `None`.
