/** The pure and state-building helpers of the `peared` command (cmd/peared/main.go):
    choosing the adapter, assembling the runner's options, formatting a duration,
    reading a log level, reporting a failed device command, and printing the adapter
    list. */
module Peared {
  import opened Wrappers
  import opened Text
  import opened Errors
  import opened Host
  import opened Adapters
  import opened Sysfs
  import opened Config
  import opened Bluetoothctl

  // ---------------------------------------------------------------- adapter choice

  const NoAdaptersDetected := Fault("no adapters detected")

  /** determineAdapter: a non-blank override verbatim; otherwise the ID of the adapter
      that SelectAdapter picks out of the default sysfs discovery for the configured
      preference. */
  function DetermineAdapter(ctx: Context, override: string, configPath: string, h: Host,
                            decode: string -> Result<DaemonConfig, Error>): Result<string, Error>
  {
    if TrimSpace(override) != "" then Success(override)
    else match LoadResult(configPath, h, decode)
      case Failure(e) => Failure(Wrapped("load config", e))
      case Success(cfg) =>
        match Listing(DefaultAdapterProvider(), Some(ctx), h)
        case Failure(e) => Failure(Wrapped("discover adapters", e))
        case Success(adapters) =>
          if |adapters| == 0 then Failure(NoAdaptersDetected)
          else Success(SelectAdapter(cfg.daemon.preferredAdapter, adapters).value.id)
  }

  /** A non-blank override is returned untrimmed, whatever the host, the config and the
      context are: nothing is loaded or discovered. */
  lemma OverrideWins(ctx: Context, override: string, configPath: string, h: Host,
                     decode: string -> Result<DaemonConfig, Error>,
                     ctx': Context, configPath': string, h': Host, decode': string -> Result<DaemonConfig, Error>)
    requires TrimSpace(override) != ""
    ensures DetermineAdapter(ctx, override, configPath, h, decode) == Success(override)
    ensures DetermineAdapter(ctx, override, configPath, h, decode) == DetermineAdapter(ctx', override, configPath', h', decode')
  {
  }

  /** Without an override the answer comes from discovery: an empty discovery is the
      "no adapters detected" error, and otherwise the ID is that of the adapter that
      SelectAdapter picks for the configured preference, which is an hci* entry of the
      sysfs root. */
  lemma DetermineFromDiscovery(ctx: Context, override: string, configPath: string, h: Host,
                               decode: string -> Result<DaemonConfig, Error>)
    requires TrimSpace(override) == ""
    requires LoadResult(configPath, h, decode).Success?
    requires Listing(DefaultAdapterProvider(), Some(ctx), h).Success?
    ensures var adapters := Listing(DefaultAdapterProvider(), Some(ctx), h).value;
      var preferred := LoadResult(configPath, h, decode).value.daemon.preferredAdapter;
      var r := DetermineAdapter(ctx, override, configPath, h, decode);
      && (adapters == [] ==> r == Failure(NoAdaptersDetected))
      && (adapters != [] ==> r == Success(SelectAdapter(preferred, adapters).value.id))
      && (r.Success? ==> HasPrefix(r.value, "hci") && exists i :: 0 <= i < |adapters| && adapters[i].id == r.value)
  {
    var adapters := Listing(DefaultAdapterProvider(), Some(ctx), h).value;
    var preferred := LoadResult(configPath, h, decode).value.daemon.preferredAdapter;
    if adapters != [] {
      var a := SelectAdapter(preferred, adapters).value;
      ListingAdapters(DefaultAdapterProvider(), ctx, h);
      var i :| 0 <= i < |adapters| && adapters[i] == a;
      assert adapters[i].id == a.id;
    }
  }

  /** Without an override, a config or discovery failure is wrapped with its step, and
      still answers errors.Is for everything its cause does. */
  lemma DetermineErrors(ctx: Context, override: string, configPath: string, h: Host,
                        decode: string -> Result<DaemonConfig, Error>, target: Error)
    requires TrimSpace(override) == ""
    ensures LoadResult(configPath, h, decode).Failure? ==>
      DetermineAdapter(ctx, override, configPath, h, decode) == Failure(Wrapped("load config", LoadResult(configPath, h, decode).error))
    ensures LoadResult(configPath, h, decode).Success? && Listing(DefaultAdapterProvider(), Some(ctx), h).Failure? ==>
      DetermineAdapter(ctx, override, configPath, h, decode) == Failure(Wrapped("discover adapters", Listing(DefaultAdapterProvider(), Some(ctx), h).error))
    ensures (LoadResult(configPath, h, decode).Success? && Listing(DefaultAdapterProvider(), Some(ctx), h).Failure? &&
             Is(Listing(DefaultAdapterProvider(), Some(ctx), h).error, target)) ==>
        Is(DetermineAdapter(ctx, override, configPath, h, decode).error, target)
  {
    var loaded := LoadResult(configPath, h, decode);
    var listed := Listing(DefaultAdapterProvider(), Some(ctx), h);
    var r := DetermineAdapter(ctx, override, configPath, h, decode);
    if loaded.Failure? {
      assert r == Failure(Wrapped("load config", loaded.error));
    } else if listed.Failure? {
      assert r == Failure(Wrapped("discover adapters", listed.error));
      assert Unwrap(r.error) == Some(listed.error);
    }
  }

  // ---------------------------------------------------------------- runner options

  /** The options newBluetoothRunner hands to NewRunner once the adapter is known. */
  function RunnerOptions(disableSudo: bool, adapter: string): (opts: seq<Option<RunnerOption>>)
    ensures Some(WithUseSudo(false)) in opts <==> disableSudo
    ensures Some(WithAdapter(adapter)) in opts <==> adapter != ""
    ensures forall i :: 0 <= i < |opts| ==> opts[i] == Some(WithUseSudo(false)) || opts[i] == Some(WithAdapter(adapter))
  {
    (if disableSudo then [Some(WithUseSudo(false))] else []) +
    (if adapter != "" then [Some(WithAdapter(adapter))] else [])
  }

  /** What the options do: disabling sudo wins over the effective user id, otherwise a
      non-root user escalates; the runner's adapter is the trimmed adapter; binary,
      sudo path and primitive are left to NewRunner's lookups. */
  lemma RunnerOptionsEffect(disableSudo: bool, adapter: string, h: Host, system: Primitive)
    ensures var s := AppliedAll(Unset, RunnerOptions(disableSudo, adapter));
      s.adapter == TrimSpace(adapter) && s.binary == "" && s.sudoPath == "" && !s.sudoSet && s.run.None?
    ensures var s := AppliedAll(Unset, RunnerOptions(disableSudo, adapter));
      Resolve(s, h, system).Success? ==> (Resolve(s, h, system).value.useSudo <==> !disableSudo && h.euid != 0)
  {
    RunnerOptionsSettings(disableSudo, adapter);
    var s := AppliedAll(Unset, RunnerOptions(disableSudo, adapter));
    if Resolve(s, h, system).Success? {
      ResolveUseSudo(s, h, system);
    }
  }

  /** The fields the options set: UseSudo false and marked set exactly when sudo is
      disabled, and the trimmed adapter. */
  lemma RunnerOptionsSettings(disableSudo: bool, adapter: string)
    ensures AppliedAll(Unset, RunnerOptions(disableSudo, adapter)) ==
      Settings("", "", false, TrimSpace(adapter), disableSudo, false, None)
  {
    var first: seq<Option<RunnerOption>> := if disableSudo then [Some(WithUseSudo(false))] else [];
    var second: seq<Option<RunnerOption>> := if adapter != "" then [Some(WithAdapter(adapter))] else [];
    assert RunnerOptions(disableSudo, adapter) == first + second;
    AppliedAllConcat(Unset, first, second);
    AppliedAllOne(Unset, WithUseSudo(false));
    var mid := AppliedAll(Unset, first);
    AppliedAllOne(mid, WithAdapter(adapter));
    TrimSpaceEmpty();
  }

  /** newBluetoothRunner: determines the adapter against the background context, then
      builds the runner from the sudo switch and the adapter. */
  method NewBluetoothRunner(disableSudo: bool, override: string, configPath: string, h: Host,
                            decode: string -> Result<DaemonConfig, Error>, system: Primitive)
    returns (runner: Runner?, adapter: string, err: Option<Error>)
    ensures var d := DetermineAdapter(Background, override, configPath, h, decode);
      d.Failure? ==> runner == null && adapter == "" && err == Some(Wrapped("determine adapter", d.error))
    ensures var d := DetermineAdapter(Background, override, configPath, h, decode);
      d.Success? ==>
        var resolved := Resolve(AppliedAll(Unset, RunnerOptions(disableSudo, d.value)), h, system);
        && (err.None? <==> resolved.Success?)
        && (err.None? ==> runner != null && fresh(runner) && runner.State() == resolved.value && adapter == d.value)
        && (err.Some? ==> runner == null && adapter == "" && err.value == resolved.error)
  {
    var determined := DetermineAdapter(Background, override, configPath, h, decode);
    if determined.Failure? {
      return null, "", Some(Wrapped("determine adapter", determined.error));
    }
    runner, err := BuildRunner(disableSudo, determined.value, h, system);
    adapter := if err.None? then determined.value else "";
  }

  /** The second half of newBluetoothRunner: the options appended one by one, then
      NewRunner. */
  method BuildRunner(disableSudo: bool, adapter: string, h: Host, system: Primitive) returns (runner: Runner?, err: Option<Error>)
    ensures var resolved := Resolve(AppliedAll(Unset, RunnerOptions(disableSudo, adapter)), h, system);
      && (err.None? <==> resolved.Success?)
      && (err.None? ==> runner != null && fresh(runner) && runner.State() == resolved.value)
      && (err.Some? ==> runner == null && err.value == resolved.error)
  {
    var opts: seq<Option<RunnerOption>> := [];
    if disableSudo {
      opts := opts + [Some(WithUseSudo(false))];
    }
    if adapter != "" {
      opts := opts + [Some(WithAdapter(adapter))];
    }
    assert opts == RunnerOptions(disableSudo, adapter);
    runner, err := NewRunner(opts, h, system);
  }

  // ---------------------------------------------------------------- durations

  /** time.Duration.Round: the multiple of m nearest to d, halves rounded away from
      zero, saturating at the ends of the int64 range; m <= 0 leaves d alone. The
      remainder is Go's, which takes the sign of d. */
  function Round(d: Duration, m: Duration): Duration
  {
    if m <= 0 then d
    else if d < 0 then
      var r: int := (-(d as int)) % m;
      if r + r < m then d + r
      else if d - m + r >= MinDuration then d - m + r else MinDuration
    else
      var r: int := d % m;
      if r + r < m then d - r
      else if d + m - r <= MaxDuration then d + m - r else MaxDuration
  }

  /** Rounding to whole seconds: the result is a multiple of a second within half a
      second of d (halves go away from zero), unless it saturated. */
  lemma RoundToSecond(d: Duration)
    ensures var r := Round(d, Second);
      || (d > 0 && r == MaxDuration)
      || (d < 0 && r == MinDuration)
      || (r % Second == 0 && (d >= 0 ==> -Second < 2 * (r - d) <= Second) && (d < 0 ==> -Second <= 2 * (r - d) < Second))
    ensures d >= 0 ==> Round(d, Second) >= 0
  {
    var m: int := Second;
    if d >= 0 {
      var q, rem := d / m, d % m;
      assert d == q * m + rem;
      if rem + rem < m {
        assert Round(d, Second) == q * m;
        WholeSecondsOf(q);
      } else if d + m - rem <= MaxDuration {
        assert Round(d, Second) == (q + 1) * m;
        WholeSecondsOf(q + 1);
      }
    } else {
      var n: int := -(d as int);
      var q, rem := n / m, n % m;
      assert n == q * m + rem;
      if rem + rem < m {
        assert Round(d, Second) == (-q) * m;
        WholeSecondsOf(-q);
      } else if d - m + rem >= MinDuration {
        assert Round(d, Second) == (-q - 1) * m;
        WholeSecondsOf(-q - 1);
      }
    }
  }

  /** A whole number of seconds leaves no remainder. */
  lemma WholeSecondsOf(k: int)
    ensures (k * Second) % Second == 0
  {
  }

  /** formatDuration, up to Duration.String: the duration that is printed. */
  function FormatDuration(d: Duration): Duration
  {
    if d <= 0 then 0
    else
      var rounded := Round(d, Second);
      if rounded == 0 then Second else rounded
  }

  /** Nothing positive prints below one second; a positive duration prints as whole
      seconds within half a second of it (or saturates), a sub-half-second one as 1s,
      and a whole number of seconds as itself. */
  lemma FormatDurationRounds(d: Duration)
    ensures d <= 0 ==> FormatDuration(d) == 0
    ensures d > 0 ==> FormatDuration(d) >= Second
    ensures d > 0 ==> FormatDuration(d) == MaxDuration || FormatDuration(d) % Second == 0
    ensures 2 * d >= Second && FormatDuration(d) != MaxDuration ==> -Second < 2 * (FormatDuration(d) - d) <= Second
    ensures 0 < d && 2 * d < Second ==> FormatDuration(d) == Second
    ensures d > 0 && d % Second == 0 ==> FormatDuration(d) == d
  {
    RoundToSecond(d);
  }

  // ---------------------------------------------------------------- log levels

  /** The four slog levels the commands use. */
  datatype Level = LevelDebug | LevelInfo | LevelWarn | LevelError

  /** parseLevel. */
  function ParseLevel(level: string): Level
  {
    match ToLower(level)
    case "debug" => LevelDebug
    case "warn" => LevelWarn
    case "warning" => LevelWarn
    case "error" => LevelError
    case "err" => LevelError
    case _ => LevelInfo
  }

  /** Each level has its spellings, in any letter case, and every other string is info;
      the letter case of the input never matters. */
  lemma ParseLevelSpellings(level: string)
    ensures ParseLevel(level) == LevelDebug <==> ToLower(level) == "debug"
    ensures ParseLevel(level) == LevelWarn <==> ToLower(level) in {"warn", "warning"}
    ensures ParseLevel(level) == LevelError <==> ToLower(level) in {"error", "err"}
    ensures ParseLevel(level) == LevelInfo <==> ToLower(level) !in {"debug", "warn", "warning", "error", "err"}
    ensures ParseLevel(ToLower(level)) == ParseLevel(level)
  {
    ToLowerIdempotent(level);
  }

  // ---------------------------------------------------------------- device errors

  /** The last line handleDeviceCommandError writes. */
  function FailureLine(operation: string, err: Error): string
  {
    "failed to execute " + operation + ": " + Message(err) + "\n"
  }

  /** handleDeviceCommandError: what it writes to standard error. */
  function DeviceCommandErrorText(operation: string, err: Error): string
  {
    var shown :=
      match AsCommandError(err)
      case Some(c) => TrimSpace(c.output)
      case None => "";
    (if shown != "" then shown + "\n" else "") + FailureLine(operation, err)
  }

  /** The failure line always comes last; before it stands the trimmed output of the
      first CommandError on the chain when that is non-blank, and nothing otherwise.
      When the output is one line, it is the first line of what is written. */
  lemma DeviceCommandErrorLayout(operation: string, err: Error)
    ensures HasSuffix(DeviceCommandErrorText(operation, err), FailureLine(operation, err))
    ensures (AsCommandError(err).None? || TrimSpace(AsCommandError(err).value.output) == "") <==>
      DeviceCommandErrorText(operation, err) == FailureLine(operation, err)
    ensures AsCommandError(err).Some? && TrimSpace(AsCommandError(err).value.output) != "" ==>
      DeviceCommandErrorText(operation, err) == TrimSpace(AsCommandError(err).value.output) + "\n" + FailureLine(operation, err)
    ensures (AsCommandError(err).Some? && TrimSpace(AsCommandError(err).value.output) != "" &&
             '\n' !in TrimSpace(AsCommandError(err).value.output)) ==>
        Split(DeviceCommandErrorText(operation, err), '\n')[0] == TrimSpace(AsCommandError(err).value.output)
  {
    var text := DeviceCommandErrorText(operation, err);
    var line := FailureLine(operation, err);
    if AsCommandError(err).Some? && TrimSpace(AsCommandError(err).value.output) != "" {
      var shown := TrimSpace(AsCommandError(err).value.output);
      assert text == shown + "\n" + line;
      assert text[|text| - |line|..] == line;
      assert |text| > |line|;
      if '\n' !in shown {
        assert text == shown + ['\n'] + line;
        SplitAfterField(shown, '\n', line);
      }
    } else {
      assert text == line;
    }
  }

  // ---------------------------------------------------------------- adapter list

  /** How an alias is shown: "(no alias)" for none. */
  function ShownAlias(alias: string): (r: string)
    ensures r != ""
    ensures alias != "" ==> r == alias
  {
    if alias == "" then "(no alias)" else alias
  }

  /** How the powered flag is shown. */
  function PoweredWord(powered: bool): string
  {
    if powered then "on" else "off"
  }

  /** One printed row, without its newline: ID, address, alias and power, tab separated. */
  function RowLine(a: Adapter): string
  {
    a.id + "\t" + a.address + "\t" + ShownAlias(a.alias) + "\t" + PoweredWord(a.powered)
  }

  /** A row splits back into its four fields when the fields hold no tab. */
  lemma RowFields(a: Adapter)
    requires '\t' !in a.id && '\t' !in a.address && '\t' !in a.alias
    ensures Split(RowLine(a), '\t') == [a.id, a.address, ShownAlias(a.alias), PoweredWord(a.powered)]
    ensures Split(RowLine(a), '\t')[3] == "on" <==> a.powered
  {
    var alias := ShownAlias(a.alias);
    var power := PoweredWord(a.powered);
    assert '\t' !in power;
    SplitFourFields(a.id, a.address, alias, power);
  }

  /** Four tab-free fields joined by tabs split back into the four. */
  lemma SplitFourFields(w: string, x: string, y: string, z: string)
    requires '\t' !in w && '\t' !in x && '\t' !in y && '\t' !in z
    ensures Split(w + "\t" + x + "\t" + y + "\t" + z, '\t') == [w, x, y, z]
  {
    var tail := y + "\t" + z;
    SplitFieldThenLast(y, z);
    var mid := x + "\t" + tail;
    SplitFieldThen(x, tail, [y, z]);
    SplitFieldThen(w, mid, [x, y, z]);
    TabJoinNests(w, x, y, z);
  }

  lemma TabJoinNests(w: string, x: string, y: string, z: string)
    ensures w + "\t" + x + "\t" + y + "\t" + z == w + "\t" + (x + "\t" + (y + "\t" + z))
  {
  }

  /** A field, a tab, and a tab-free last field split into the two. */
  lemma SplitFieldThenLast(field: string, last: string)
    requires '\t' !in field && '\t' !in last
    ensures Split(field + "\t" + last, '\t') == [field, last]
  {
    SplitNoSeparator(last, '\t');
    SplitAfterField(field, '\t', last);
    assert field + "\t" + last == field + ['\t'] + last;
  }

  /** A tab-free field and a tab before the rest split into the field and the pieces of
      the rest. */
  lemma SplitFieldThen(field: string, rest: string, pieces: seq<string>)
    requires '\t' !in field && Split(rest, '\t') == pieces
    ensures Split(field + "\t" + rest, '\t') == [field] + pieces
  {
    SplitAfterField(field, '\t', rest);
    assert field + "\t" + rest == field + ['\t'] + rest;
  }

  /** The rows of the adapters, in order. */
  function Rows(adapters: seq<Adapter>): string
  {
    if adapters == [] then ""
    else Rows(adapters[..|adapters| - 1]) + RowLine(adapters[|adapters| - 1]) + "\n"
  }

  /** The rows of the adapters without their newlines, in order. */
  function RowLines(adapters: seq<Adapter>): (r: seq<string>)
    ensures |r| == |adapters|
    ensures forall i :: 0 <= i < |adapters| ==> r[i] == RowLine(adapters[i])
  {
    if adapters == [] then []
    else RowLines(adapters[..|adapters| - 1]) + [RowLine(adapters[|adapters| - 1])]
  }

  /** Rows is one newline-terminated line per adapter, in order: splitting at newlines
      gives back each row and a final empty piece. */
  lemma {:induction false} RowsLines(adapters: seq<Adapter>)
    requires forall i :: 0 <= i < |adapters| ==> '\n' !in RowLine(adapters[i])
    ensures Split(Rows(adapters), '\n') == RowLines(adapters) + [""]
  {
    if adapters != [] {
      var init := adapters[..|adapters| - 1];
      var last := adapters[|adapters| - 1];
      assert forall i :: 0 <= i < |init| ==> init[i] == adapters[i];
      RowsLines(init);
      var pieces := RowLines(init) + [""];
      assert pieces[|pieces| - 1] == "";
      SplitConcatLine(Rows(init), RowLine(last));
      assert Rows(adapters) == Rows(init) + RowLine(last) + "\n";
      assert RowLines(adapters) == RowLines(init) + [RowLine(last)];
      ReplaceLastPiece(RowLines(init), RowLine(last), "");
    }
  }

  /** Replacing the final piece by a line and a new final piece. */
  lemma ReplaceLastPiece(xs: seq<string>, line: string, e: string)
    ensures (xs + [e])[..|xs + [e]| - 1] + [line, e] == xs + [line] + [e]
  {
    assert (xs + [e])[..|xs + [e]| - 1] == xs;
  }

  /** Appending one newline-terminated line adds one piece before the final empty one. */
  lemma {:induction false} SplitConcatLine(text: string, line: string)
    requires '\n' !in line
    requires Split(text, '\n')[|Split(text, '\n')| - 1] == ""
    ensures Split(text + line + "\n", '\n') == Split(text, '\n')[..|Split(text, '\n')| - 1] + [line, ""]
    decreases |text|
  {
    var s := text + line + "\n";
    if text == [] {
      assert s == line + ['\n'] + [];
      SplitAfterField(line, '\n', []);
    } else {
      assert s[1..] == text[1..] + line + "\n";
      assert s[0] == text[0];
      var rest := Split(text[1..], '\n');
      SplitLastOfTail(text);
      SplitConcatLine(text[1..], line);
      var restS := Split(s[1..], '\n');
      assert restS == rest[..|rest| - 1] + [line, ""];
      if text[0] == '\n' {
        assert Split(text, '\n') == [[]] + rest;
        assert Split(s, '\n') == [[]] + restS;
        assert ([[]] + rest)[..|[[]] + rest| - 1] == [[]] + rest[..|rest| - 1];
      } else {
        assert Split(text, '\n') == [[text[0]] + rest[0]] + rest[1..];
        assert Split(s, '\n') == [[text[0]] + restS[0]] + restS[1..];
        assert restS[0] == rest[0];
        assert restS[1..] == rest[1..|rest| - 1] + [line, ""];
        var t := [[text[0]] + rest[0]] + rest[1..];
        assert t[..|t| - 1] == [[text[0]] + rest[0]] + rest[1..|rest| - 1];
      }
    }
  }

  /** A split ending in an empty piece comes from a tail whose split ends in one too, and
      which has a piece to spare when the first character is not the separator. */
  lemma SplitLastOfTail(text: string)
    requires text != []
    requires Split(text, '\n')[|Split(text, '\n')| - 1] == ""
    ensures var rest := Split(text[1..], '\n');
      rest[|rest| - 1] == "" && (text[0] != '\n' ==> |rest| >= 2)
  {
  }

  const NoAdaptersLine := "No adapters detected.\n"

  /** The standard output of a successful `peared adapters list`. */
  function AdapterTable(adapters: seq<Adapter>): string
  {
    if adapters == [] then NoAdaptersLine else Rows(adapters)
  }

  /** What `peared adapters list` writes, and whether it exits with failure. */
  datatype ListOutput = ListOutput(stdout: string, stderr: string, failed: bool)

  const PermissionHintHead := "failed to list adapters: insufficient permissions to read "
  const PermissionHintTail := ". Run the command with elevated privileges or adjust udev rules to grant access.\n"
  const ListFailurePrefix := "failed to list adapters: "

  /** The message for a listing refused for lack of permission. */
  function PermissionHint(path: string): string
  {
    PermissionHintHead + path + PermissionHintTail
  }

  /** The message for any other listing failure. */
  function ListFailure(err: Error): string
  {
    ListFailurePrefix + Message(err) + "\n"
  }

  /** What listAdapters writes once discovery under the --sysfs value has answered. */
  function Report(sysfsPath: string, listed: Result<seq<Adapter>, Error>): ListOutput
  {
    match listed
    case Failure(e) =>
      if Is(e, ErrPermission) then
        ListOutput("", PermissionHint(if sysfsPath == "" then DefaultSysfsBluetoothPath else sysfsPath), true)
      else ListOutput("", ListFailure(e), true)
    case Success(adapters) => ListOutput(AdapterTable(adapters), "", false)
  }

  /** A permission failure is reported with the hint for the root that was read. */
  lemma ReportPermission(sysfsPath: string, e: Error, path: string)
    requires Is(e, ErrPermission)
    requires path == if sysfsPath == "" then DefaultSysfsBluetoothPath else sysfsPath
    ensures Report(sysfsPath, Failure(e)) == ListOutput("", PermissionHint(path), true)
  {
  }

  /** What listAdapters writes for a --sysfs value, as a value. */
  function ListAdaptersOutput(sysfsPath: string, h: Host): ListOutput
  {
    Report(sysfsPath, Listing(NewSysfsAdapterProvider(sysfsPath), Some(Background), h))
  }

  /** listAdapters after flag parsing: discovers with the background context and prints
      the hint, the error, the empty notice or one row per adapter. */
  method ListAdapters(sysfsPath: string, h: Host) returns (stdout: string, stderr: string, failed: bool)
    ensures ListOutput(stdout, stderr, failed) == ListAdaptersOutput(sysfsPath, h)
  {
    var provider := NewSysfsAdapterProvider(sysfsPath);
    var adapters, err := Sysfs.ListAdapters(provider, Some(Background), h);
    stdout, stderr, failed := ReportListing(sysfsPath, adapters, err);
  }

  /** The printing half of listAdapters, given what discovery returned. */
  method ReportListing(sysfsPath: string, adapters: seq<Adapter>, err: Option<Error>) returns (stdout: string, stderr: string, failed: bool)
    ensures ListOutput(stdout, stderr, failed) == Report(sysfsPath, if err.Some? then Failure(err.value) else Success(adapters))
  {
    if err.Some? {
      if Is(err.value, ErrPermission) {
        var path := sysfsPath;
        if path == "" {
          path := DefaultSysfsBluetoothPath;
        }
        ReportPermission(sysfsPath, err.value, path);
        return "", PermissionHint(path), true;
      }
      return "", ListFailure(err.value), true;
    }
    if |adapters| == 0 {
      return NoAdaptersLine, "", false;
    }
    stdout := PrintRows(adapters);
    stderr, failed := "", false;
    assert AdapterTable(adapters) == Rows(adapters);
  }

  /** The row loop of listAdapters. */
  method PrintRows(adapters: seq<Adapter>) returns (out: string)
    ensures out == Rows(adapters)
  {
    out := "";
    var i := 0;
    while i < |adapters|
      invariant 0 <= i <= |adapters|
      invariant out == Rows(adapters[..i])
    {
      var row := FormatRow(adapters[i]);
      RowsExtend(adapters, i);
      out := out + row + "\n";
      i := i + 1;
    }
    assert adapters[..i] == adapters;
  }

  /** The body of the row loop: the power word and the shown alias, then the fields
      joined by tabs. */
  method FormatRow(a: Adapter) returns (row: string)
    ensures row == RowLine(a)
  {
    var powered := "off";
    if a.powered {
      powered := "on";
    }
    var alias := a.alias;
    if alias == "" {
      alias := "(no alias)";
    }
    row := a.id + "\t" + a.address + "\t" + alias + "\t" + powered;
  }

  /** The rows of one more adapter add its line. */
  lemma RowsExtend(adapters: seq<Adapter>, i: nat)
    requires i < |adapters|
    ensures Rows(adapters[..i + 1]) == Rows(adapters[..i]) + RowLine(adapters[i]) + "\n"
  {
    assert adapters[..i + 1][..i] == adapters[..i];
  }

  /** The permission hint names the --sysfs root, or the default root when none was
      given; a root that cannot be read for any other reason reports the error itself. */
  lemma ListAdaptersRootFailure(sysfsPath: string, h: Host)
    requires ReadDir(h, NewSysfsAdapterProvider(sysfsPath).root).Failure?
    ensures var e := ReadDir(h, NewSysfsAdapterProvider(sysfsPath).root).error;
      var out := ListAdaptersOutput(sysfsPath, h);
      && out.failed && out.stdout == ""
      && (Is(e, ErrPermission) ==> out.stderr == PermissionHint(NewSysfsAdapterProvider(sysfsPath).root))
      && (!Is(e, ErrPermission) ==> out.stderr == ListFailure(Wrapped("read sysfs adapters", e)))
  {
    var p := NewSysfsAdapterProvider(sysfsPath);
    var e := ReadDir(h, p.root).error;
    ListingRootFailure(p, Background, h);
    var listed := Listing(p, Some(Background), h);
    if !Is(e, ErrPermission) {
      assert listed.error == Wrapped("read sysfs adapters", e);
      assert !Is(listed.error, ErrPermission);
    }
  }

  /** The line listAdapters prints for a root that fails with ENOENT, piece by piece as
      the wrappers compose it. */
  lemma NotExistLine(context: string, op: string, path: string)
    ensures ListFailure(Wrapped(context, PathError(op, path, ErrNotExist)))
      == ListFailurePrefix + context + ": " + op + " " + path + ": " + NotExistText + "\n"
  {
    var inner := op + " " + path + ": " + NotExistText;
    assert Message(PathError(op, path, ErrNotExist)) == inner;
    assert Message(Wrapped(context, PathError(op, path, ErrNotExist))) == context + ": " + inner;
    assert context + ": " + inner == context + ": " + op + " " + path + ": " + NotExistText;
  }

  /** On a machine without Bluetooth support loaded, /sys/class/bluetooth does not exist:
      `peared adapters list` fails with the wrapped ENOENT of the root and prints nothing
      on standard output. */
  lemma ListAdaptersWithoutBluetooth(h: Host)
    requires DefaultSysfsBluetoothPath !in h.dirs
    ensures ListAdaptersOutput("", h) == ListOutput("",
      "failed to list adapters: " + "read sysfs adapters" + ": " + "open" + " " + "/sys/class/bluetooth" + ": "
        + "no such file or directory" + "\n", true)
  {
    var p := NewSysfsAdapterProvider("");
    var e := PathError("open", DefaultSysfsBluetoothPath, ErrNotExist);
    assert ReadDir(h, p.root) == Failure(e);
    assert !Is(e, ErrPermission) by { SentinelsDistinct(ErrNotExist, ErrPermission); }
    ListingRootFailure(p, Background, h);
    var err := Wrapped("read sysfs adapters", e);
    assert Listing(p, Some(Background), h) == Failure(err);
    assert !Is(err, ErrPermission);
    NotExistLine("read sysfs adapters", "open", DefaultSysfsBluetoothPath);
  }

  /** A successful listing prints one line per hci* entry, in directory order, beginning
      with its ID; an empty one prints only the notice. */
  lemma ListAdaptersPrintsRows(sysfsPath: string, h: Host)
    requires Listing(NewSysfsAdapterProvider(sysfsPath), Some(Background), h).Success?
    ensures var adapters := Listing(NewSysfsAdapterProvider(sysfsPath), Some(Background), h).value;
      var out := ListAdaptersOutput(sysfsPath, h);
      && !out.failed && out.stderr == ""
      && (adapters == [] ==> out.stdout == NoAdaptersLine)
      && (adapters != [] && (forall i :: 0 <= i < |adapters| ==> '\n' !in RowLine(adapters[i])) ==>
            Split(out.stdout, '\n') == RowLines(adapters) + [""])
  {
    var adapters := Listing(NewSysfsAdapterProvider(sysfsPath), Some(Background), h).value;
    if adapters != [] && (forall i :: 0 <= i < |adapters| ==> '\n' !in RowLine(adapters[i])) {
      RowsLines(adapters);
    }
  }
}
