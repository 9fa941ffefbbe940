/** The bluetoothctl runner (internal/bluetoothctl/runner.go): construction from
    options, privilege escalation through sudo, and the exact program and argument
    vector each operation hands to the command primitive. */
module Bluetoothctl {
  import opened Wrappers
  import opened Text
  import opened Errors
  import opened Host

  /** One call of the command primitive: the program and its arguments. */
  datatype Invocation = Invocation(program: string, argv: seq<string>)

  /** What the primitive answers: the combined output, and an error if the command failed. */
  datatype Reply = Reply(output: string, err: Option<Error>)

  /** A commandRunner, as data: the reply to each invocation it knows, and a reply
      for every other invocation. */
  datatype Primitive = Primitive(replies: map<Invocation, Reply>, otherwise: Reply)

  function Call(run: Primitive, inv: Invocation): Reply
  {
    if inv in run.replies then run.replies[inv] else run.otherwise
  }

  /** The RunnerOption closures. */
  datatype RunnerOption =
    | WithBinary(path: string)
    | WithSudoPath(sudoPath: string)
    | WithUseSudo(use: bool)
    | WithAdapter(adapter: string)
    | WithCommandRunner(run: Primitive)

  /** The fields of a *Runner. */
  datatype Settings = Settings(
    binary: string,
    sudoPath: string,
    useSudo: bool,
    adapter: string,
    useSudoSet: bool,
    sudoSet: bool,
    run: Option<Primitive>)

  /** &Runner{}. */
  const Unset := Settings("", "", false, "", false, false, None)

  /** What one option does to the fields. */
  function Applied(s: Settings, opt: RunnerOption): Settings
  {
    match opt
    case WithBinary(path) => s.(binary := path)
    case WithSudoPath(path) => s.(sudoPath := path, sudoSet := true)
    case WithUseSudo(use) => s.(useSudo := use, useSudoSet := true)
    case WithAdapter(adapter) => s.(adapter := TrimSpace(adapter))
    case WithCommandRunner(run) => s.(run := Some(run))
  }

  /** The options applied in order; a nil option (None) is skipped. */
  function AppliedAll(s: Settings, opts: seq<Option<RunnerOption>>): Settings
  {
    if opts == [] then s
    else
      var before := AppliedAll(s, opts[..|opts| - 1]);
      var last := opts[|opts| - 1];
      if last.Some? then Applied(before, last.value) else before
  }

  const NilExecContext := Fault("nil context passed to exec")
  const NilScanContext := Fault("nil context passed to Scan")
  const NilContextPassed := "nil context passed to "
  const AddressRequired := "device address required for "

  const SudoMissingHead := "sudo binary not found"
  const SudoMissingTail := " while privilege escalation is required; run the command as root or install sudo"
  const SudoMissing := SudoMissingHead + SudoMissingTail

  /** The rest of NewRunner once the options are applied: locate bluetoothctl unless a
      binary was given, locate sudo unless a sudo path was given, default UseSudo from
      the effective user id, refuse escalation without sudo, and fall back to `system`
      as the command primitive. */
  function Resolve(s: Settings, h: Host, system: Primitive): Result<Settings, Error>
  {
    var located := if s.binary == "" then LookPath(h, "bluetoothctl") else Success(s.binary);
    if located.Failure? then Failure(Wrapped("locate bluetoothctl", located.error))
    else
      var sudo := if s.sudoPath == "" && !s.sudoSet && LookPath(h, "sudo").Success? then LookPath(h, "sudo").value else s.sudoPath;
      var useSudo := if !s.useSudoSet && h.euid != 0 then true else s.useSudo;
      if useSudo && sudo == "" then Failure(Fault(SudoMissing))
      else Success(s.(binary := located.value, sudoPath := sudo, useSudo := useSudo,
                      run := if s.run.Some? then s.run else Some(system)))
  }

  /** No option but WithUseSudo touches UseSudo, so an unset flag means UseSudo is false. */
  lemma {:induction false} AppliedAllUseSudoUnset(opts: seq<Option<RunnerOption>>)
    ensures !AppliedAll(Unset, opts).useSudoSet ==> !AppliedAll(Unset, opts).useSudo
  {
    if opts != [] {
      AppliedAllUseSudoUnset(opts[..|opts| - 1]);
    }
  }

  predicate SetsUseSudo(o: Option<RunnerOption>)
  {
    o.Some? && o.value.WithUseSudo?
  }

  /** Options that are not WithUseSudo leave UseSudo and its flag alone. */
  lemma {:induction false} OthersKeepUseSudo(s: Settings, rest: seq<Option<RunnerOption>>)
    requires forall i :: 0 <= i < |rest| ==> !SetsUseSudo(rest[i])
    ensures AppliedAll(s, rest).useSudo == s.useSudo
    ensures AppliedAll(s, rest).useSudoSet == s.useSudoSet
  {
    if rest != [] {
      OthersKeepUseSudo(s, rest[..|rest| - 1]);
    }
  }

  /** Applying a concatenation applies its parts in turn. */
  lemma {:induction false} AppliedAllConcat(s: Settings, a: seq<Option<RunnerOption>>, b: seq<Option<RunnerOption>>)
    ensures AppliedAll(s, a + b) == AppliedAll(AppliedAll(s, a), b)
  {
    if b == [] {
      assert a + b == a;
    } else {
      assert (a + b)[..|a + b| - 1] == a + b[..|b| - 1];
      assert (a + b)[|a + b| - 1] == b[|b| - 1];
      AppliedAllConcat(s, a, b[..|b| - 1]);
    }
  }

  /** No option leaves the fields alone; a single option is applied once. */
  lemma AppliedAllOne(s: Settings, opt: RunnerOption)
    ensures AppliedAll(s, []) == s
    ensures AppliedAll(s, [Some(opt)]) == Applied(s, opt)
  {
    assert [Some(opt)][..0] == [];
  }

  /** The last WithUseSudo wins, whatever came before it and whatever the euid is. */
  lemma LastUseSudoWins(first: seq<Option<RunnerOption>>, use: bool, rest: seq<Option<RunnerOption>>, h: Host, system: Primitive)
    requires forall i :: 0 <= i < |rest| ==> !SetsUseSudo(rest[i])
    ensures var s := AppliedAll(Unset, first + [Some(WithUseSudo(use))] + rest);
      s.useSudoSet && s.useSudo == use &&
      (Resolve(s, h, system).Success? ==> Resolve(s, h, system).value.useSudo == use)
  {
    LastUseSudoSets(first, use, rest);
    var s := AppliedAll(Unset, first + [Some(WithUseSudo(use))] + rest);
    if Resolve(s, h, system).Success? {
      ResolveUseSudo(s, h, system);
    }
  }

  lemma LastUseSudoSets(first: seq<Option<RunnerOption>>, use: bool, rest: seq<Option<RunnerOption>>)
    requires forall i :: 0 <= i < |rest| ==> !SetsUseSudo(rest[i])
    ensures var s := AppliedAll(Unset, first + [Some(WithUseSudo(use))] + rest);
      s.useSudoSet && s.useSudo == use
  {
    var mid := first + [Some(WithUseSudo(use))];
    AppliedAllConcat(Unset, mid, rest);
    assert mid[..|mid| - 1] == first;
    var before := AppliedAll(Unset, mid);
    assert before == Applied(AppliedAll(Unset, first), WithUseSudo(use));
    OthersKeepUseSudo(before, rest);
  }

  /** Without WithUseSudo, a constructed runner uses sudo exactly when the effective user
      is not root. */
  lemma UseSudoFollowsEuid(opts: seq<Option<RunnerOption>>, h: Host, system: Primitive)
    requires forall i :: 0 <= i < |opts| ==> !SetsUseSudo(opts[i])
    requires Resolve(AppliedAll(Unset, opts), h, system).Success?
    ensures Resolve(AppliedAll(Unset, opts), h, system).value.useSudo <==> h.euid != 0
  {
    var s := AppliedAll(Unset, opts);
    OthersKeepUseSudo(Unset, opts);
    assert !s.useSudoSet && !s.useSudo;
    ResolveUseSudo(s, h, system);
  }

  lemma ResolveUseSudo(s: Settings, h: Host, system: Primitive)
    requires Resolve(s, h, system).Success?
    ensures Resolve(s, h, system).value.useSudo == (if !s.useSudoSet && h.euid != 0 then true else s.useSudo)
  {
  }

  /** bluetoothctl is looked up only when no binary was given, and a failed lookup fails
      construction with the lookup error wrapped. */
  lemma BinaryResolution(s: Settings, h: Host, system: Primitive)
    ensures s.binary != "" ==> Resolve(s, h, system) == Resolve(s, h.(executables := h.executables - {"bluetoothctl"}), system)
    ensures s.binary != "" ==> Resolve(s, h, system).Success? || Resolve(s, h, system) == Failure(Fault(SudoMissing))
    ensures s.binary != "" && Resolve(s, h, system).Success? ==> Resolve(s, h, system).value.binary == s.binary
    ensures s.binary == "" && LookPath(h, "bluetoothctl").Failure? ==>
      Resolve(s, h, system) == Failure(Wrapped("locate bluetoothctl", LookPath(h, "bluetoothctl").error))
    ensures s.binary == "" && "bluetoothctl" !in h.executables ==>
      Resolve(s, h, system).Failure? && Is(Resolve(s, h, system).error, ErrNotFound)
    ensures s.binary == "" && "bluetoothctl" in h.executables && h.executables["bluetoothctl"].FoundRelative? ==>
      Resolve(s, h, system).Failure? && Is(Resolve(s, h, system).error, ErrDot) && !Is(Resolve(s, h, system).error, ErrNotFound)
    ensures s.binary == "" && Resolve(s, h, system).Success? ==> Resolve(s, h, system).value.binary == LookPath(h, "bluetoothctl").value
  {
  }

  /** sudo is looked up only when no sudo path was given; WithSudoPath("") suppresses
      the lookup. */
  lemma SudoResolution(s: Settings, h: Host, system: Primitive)
    requires Resolve(s, h, system).Success?
    ensures s.sudoSet ==> Resolve(s, h, system).value.sudoPath == s.sudoPath
    ensures !s.sudoSet && s.sudoPath == "" && LookPath(h, "sudo").Success? ==>
      Resolve(s, h, system).value.sudoPath == LookPath(h, "sudo").value
  {
  }

  /** Construction refuses exactly the configurations that would escalate without a sudo
      binary (once bluetoothctl is found); without WithCommandRunner the system primitive
      is used. */
  lemma SudoMissingIff(s: Settings, h: Host, system: Primitive)
    requires s.binary != "" || LookPath(h, "bluetoothctl").Success?
    ensures var sudo := if s.sudoPath == "" && !s.sudoSet && LookPath(h, "sudo").Success? then LookPath(h, "sudo").value else s.sudoPath;
      var useSudo := if !s.useSudoSet then h.euid != 0 || s.useSudo else s.useSudo;
      (Resolve(s, h, system) == Failure(Fault(SudoMissing))) <==> (useSudo && sudo == "")
    ensures Resolve(s, h, system).Success? ==>
      Resolve(s, h, system).value.run == (if s.run.Some? then s.run else Some(system))
  {
  }

  /** A constructed runner never escalates without a sudo binary and always has a primitive. */
  lemma ResolvedIsUsable(s: Settings, h: Host, system: Primitive)
    requires Resolve(s, h, system).Success?
    ensures var r := Resolve(s, h, system).value;
      r.binary != "" || LookPath(h, "bluetoothctl") == Success("")
    ensures Resolve(s, h, system).value.useSudo ==> Resolve(s, h, system).value.sudoPath != ""
    ensures Resolve(s, h, system).value.run.Some?
  {
  }

  /** The `--adapter <id>` prefix, present only for a non-empty adapter. */
  function AdapterPrefix(adapter: string): (r: seq<string>)
    ensures adapter == "" <==> r == []
    ensures adapter != "" ==> r == ["--adapter", adapter]
  {
    if adapter != "" then ["--adapter", adapter] else []
  }

  /** What exec hands to the primitive: sudo and the binary as its first argument when
      escalating, the binary otherwise; the adapter prefix; then the operation's arguments. */
  function CommandLine(s: Settings, args: seq<string>): Invocation
  {
    if s.useSudo then Invocation(s.sudoPath, [s.binary] + AdapterPrefix(s.adapter) + args)
    else Invocation(s.binary, AdapterPrefix(s.adapter) + args)
  }

  /** The operation's arguments read back from an argument vector built by CommandLine. */
  function OperationArgs(s: Settings, argv: seq<string>): seq<string>
  {
    var skip := (if s.useSudo then 1 else 0) + |AdapterPrefix(s.adapter)|;
    if skip <= |argv| then argv[skip..] else []
  }

  /** The prefixes never swallow or alter the operation's arguments. */
  lemma CommandLineRoundTrip(s: Settings, args: seq<string>)
    ensures OperationArgs(s, CommandLine(s, args).argv) == args
    ensures HasSuffixSeq(CommandLine(s, args).argv, args)
    ensures CommandLine(s, args).program == (if s.useSudo then s.sudoPath else s.binary)
    ensures s.useSudo ==> CommandLine(s, args).argv[0] == s.binary
  {
    var inv := CommandLine(s, args);
    if s.useSudo {
      assert inv.argv == [s.binary] + AdapterPrefix(s.adapter) + args;
    }
  }

  predicate HasSuffixSeq(a: seq<string>, b: seq<string>)
  {
    |b| <= |a| && a[|a| - |b|..] == b
  }

  /** What exec, Scan or a device command returns: the output, or an error. */
  datatype Outcome = Outcome(out: string, err: Option<Error>)

  /** exec: a failed command gives "" and a CommandError carrying the operation's own
      arguments, the exact output and the cause. */
  function ExecSpec(s: Settings, ctx: Option<Context>, args: seq<string>): Outcome
    requires s.run.Some?
  {
    if ctx.None? then Outcome("", Some(NilExecContext))
    else
      var reply := Call(s.run.value, CommandLine(s, args));
      if reply.err.Some? then Outcome("", Some(CommandError(args, reply.output, reply.err.value)))
      else Outcome(reply.output, None)
  }

  /** A failure of the primitive is reported as a CommandError that errors.As finds, that
      unwraps to the cause, whose Output is exactly what the primitive returned and whose
      Args leave out the adapter and sudo prefixes. */
  lemma ExecFailure(s: Settings, ctx: Context, args: seq<string>)
    requires s.run.Some? && Call(s.run.value, CommandLine(s, args)).err.Some?
    ensures var reply := Call(s.run.value, CommandLine(s, args));
      var o := ExecSpec(s, Some(ctx), args);
      && o.out == "" && o.err.Some?
      && AsCommandError(o.err.value) == Some(CommandError(args, reply.output, reply.err.value))
      && Unwrap(o.err.value) == Some(reply.err.value)
      && Is(o.err.value, reply.err.value)
  {
  }

  /** The number of seconds Scan asks for: 15 for a non-positive duration, otherwise the
      whole seconds in it, but at least one. */
  function ScanSeconds(d: Duration): (n: nat)
    ensures n >= 1
    ensures d <= 0 ==> n == 15
    ensures 0 < d < Second ==> n == 1
    ensures d >= Second ==> n * Second <= d < (n + 1) * Second
  {
    var duration := if d <= 0 then 15 * Second else d;
    var secs := duration / Second;
    if secs <= 0 then 1 else secs
  }

  function ScanArgs(d: Duration): seq<string>
  {
    ["--timeout", DecimalString(ScanSeconds(d)), "scan", "on"]
  }

  /** Scan's result. */
  function ScanSpec(s: Settings, ctx: Option<Context>, d: Duration): Outcome
    requires s.run.Some?
  {
    if ctx.None? then Outcome("", Some(NilScanContext))
    else
      var o := ExecSpec(s, ctx, ScanArgs(d));
      if o.err.Some? then Outcome("", o.err) else Outcome(TrimSpace(o.out), None)
  }

  /** Scan passes `--timeout <n> scan on`, and the number read back from the argument
      is the scan window in whole seconds. */
  lemma ScanArguments(s: Settings, d: Duration)
    ensures |ScanArgs(d)| == 4 && ScanArgs(d)[0] == "--timeout" && ScanArgs(d)[2] == "scan" && ScanArgs(d)[3] == "on"
    ensures IsDigits(ScanArgs(d)[1]) && ParseDecimal(ScanArgs(d)[1]) == ScanSeconds(d)
    ensures OperationArgs(s, CommandLine(s, ScanArgs(d)).argv) == ScanArgs(d)
  {
    DecimalRoundTrip(ScanSeconds(d));
    CommandLineRoundTrip(s, ScanArgs(d));
  }

  /** simpleDeviceCommand's result. */
  function DeviceSpec(s: Settings, ctx: Option<Context>, command: string, address: string): Outcome
    requires s.run.Some?
  {
    if ctx.None? then Outcome("", Some(Fault(NilContextPassed + command)))
    else if TrimSpace(address) == "" then Outcome("", Some(Fault(AddressRequired + command)))
    else
      var o := ExecSpec(s, ctx, [command, TrimSpace(address)]);
      if o.err.Some? then Outcome("", o.err) else Outcome(TrimSpace(o.out), None)
  }

  /** A nil context or a blank address is refused without consulting the primitive: the
      answer is the same whatever the primitive would reply. */
  lemma DeviceRefusal(s: Settings, other: Primitive, ctx: Option<Context>, command: string, address: string)
    requires s.run.Some?
    requires ctx.None? || TrimSpace(address) == ""
    ensures DeviceSpec(s, ctx, command, address).err.Some?
    ensures DeviceSpec(s, ctx, command, address).out == ""
    ensures DeviceSpec(s, ctx, command, address) == DeviceSpec(s.(run := Some(other)), ctx, command, address)
  {
  }

  /** Otherwise the arguments are the command and the trimmed address, and a success
      returns the trimmed output. */
  lemma DeviceInvocation(s: Settings, ctx: Context, command: string, address: string)
    requires s.run.Some? && TrimSpace(address) != ""
    ensures var reply := Call(s.run.value, CommandLine(s, [command, TrimSpace(address)]));
      var o := DeviceSpec(s, Some(ctx), command, address);
      && (reply.err.None? ==> o == Outcome(TrimSpace(reply.output), None))
      && (reply.err.Some? ==> o == Outcome("", Some(CommandError([command, TrimSpace(address)], reply.output, reply.err.value))))
  {
  }

  /** The options of a runner configured explicitly for sudo, with `run` as primitive. */
  function SudoOptions(run: Primitive): seq<Option<RunnerOption>>
  {
    [Some(WithBinary("bluetoothctl")), Some(WithSudoPath("sudo")), Some(WithUseSudo(true)), Some(WithCommandRunner(run))]
  }

  lemma SudoSettings(run: Primitive)
    ensures AppliedAll(Unset, SudoOptions(run)) == Settings("bluetoothctl", "sudo", true, "", true, true, Some(run))
  {
    var opts := SudoOptions(run);
    assert opts[..1][..0] == [] && opts[..2][..1] == opts[..1] && opts[..3][..2] == opts[..2] && opts[..4] == opts;
    assert AppliedAll(Unset, opts[..1]) == Unset.(binary := "bluetoothctl");
    assert AppliedAll(Unset, opts[..2]) == Unset.(binary := "bluetoothctl", sudoPath := "sudo", sudoSet := true);
    assert AppliedAll(Unset, opts[..3]) == Settings("bluetoothctl", "sudo", true, "", true, true, None);
  }

  /** With sudo configured explicitly, a three-second scan runs
      `sudo bluetoothctl --timeout 3 scan on` and returns the printed line without its
      newline. */
  lemma ScanThroughSudo(h: Host, system: Primitive, line: string)
    requires line != [] && !IsSpace(line[0]) && !IsSpace(line[|line| - 1])
    ensures var r := Resolve(AppliedAll(Unset, SudoOptions(Primitive(map[], Reply(line + "\n", None)))), h, system);
      && r.Success?
      && CommandLine(r.value, ScanArgs(3 * Second)) == Invocation("sudo", ["bluetoothctl", "--timeout", "3", "scan", "on"])
      && ScanSpec(r.value, Some(Background), 3 * Second) == Outcome(line, None)
  {
    var run := Primitive(map[], Reply(line + "\n", None));
    SudoSettings(run);
    var st := Settings("bluetoothctl", "sudo", true, "", true, true, Some(run));
    assert Resolve(AppliedAll(Unset, SudoOptions(run)), h, system) == Success(st);
    SudoScanCommandLine(run);
    ScanArgsThreeSeconds();
    ScanTrimsReply(st, Some(Background), 3 * Second);
    TrimSpaceOfTrimmed(line, "\n");
  }

  lemma SudoScanCommandLine(run: Primitive)
    ensures CommandLine(Settings("bluetoothctl", "sudo", true, "", true, true, Some(run)), ScanArgs(3 * Second))
      == Invocation("sudo", ["bluetoothctl", "--timeout", "3", "scan", "on"])
  {
    ScanArgsThreeSeconds();
  }

  lemma ScanArgsThreeSeconds()
    ensures ScanArgs(3 * Second) == ["--timeout", "3", "scan", "on"]
  {
    assert ScanSeconds(3 * Second) == 3;
    assert DecimalString(3) == "3";
  }

  /** A scan whose command succeeds returns the reply trimmed. */
  lemma ScanTrimsReply(s: Settings, ctx: Option<Context>, d: Duration)
    requires s.run.Some? && ctx.Some?
    requires Call(s.run.value, CommandLine(s, ScanArgs(d))).err.None?
    ensures ScanSpec(s, ctx, d) == Outcome(TrimSpace(Call(s.run.value, CommandLine(s, ScanArgs(d))).output), None)
  {
  }

  /** The options of a runner that never escalates, with `run` as primitive. */
  function DirectOptions(run: Primitive): seq<Option<RunnerOption>>
  {
    [Some(WithBinary("bluetoothctl")), Some(WithUseSudo(false)), Some(WithCommandRunner(run))]
  }

  lemma DirectSettings(run: Primitive)
    ensures AppliedAll(Unset, DirectOptions(run)) == Settings("bluetoothctl", "", false, "", true, false, Some(run))
  {
    var opts := DirectOptions(run);
    assert opts[..1][..0] == [] && opts[..2][..1] == opts[..1] && opts[..3] == opts;
    assert AppliedAll(Unset, opts[..1]) == Unset.(binary := "bluetoothctl");
    assert AppliedAll(Unset, opts[..2]) == Settings("bluetoothctl", "", false, "", true, false, None);
  }

  /** A failing pair runs bluetoothctl itself and reports a CommandError whose Output is
      exactly what bluetoothctl printed. */
  lemma PairFailureKeepsOutput(h: Host, system: Primitive, printed: string, cause: Error, address: string)
    requires address != [] && !IsSpace(address[0]) && !IsSpace(address[|address| - 1])
    ensures var run := Primitive(map[], Reply(printed, Some(cause)));
      var r := Resolve(AppliedAll(Unset, DirectOptions(run)), h, system);
      && r.Success?
      && CommandLine(r.value, ["pair", address]).program == "bluetoothctl"
      && var o := DeviceSpec(r.value, Some(Background), "pair", address);
        && o.err.Some?
        && AsCommandError(o.err.value) == Some(CommandError(["pair", address], printed, cause))
  {
    var run := Primitive(map[], Reply(printed, Some(cause)));
    DirectSettings(run);
    var st := Settings("bluetoothctl", "", false, "", true, false, Some(run));
    var rv := Resolve(st, h, system).value;
    assert rv.binary == "bluetoothctl" && !rv.useSudo && rv.run == Some(run);
    assert TrimLeft(address) == address;
    assert TrimRight(address) == address;
    DeviceInvocation(rv, Background, "pair", address);
  }

  /** A non-root user who suppresses the sudo lookup with an empty sudo path cannot
      build a runner. */
  lemma NonRootWithoutSudoFails(h: Host, system: Primitive)
    requires h.euid == 1000
    ensures var opts := [Some(WithBinary("bluetoothctl")), Some(WithSudoPath(""))];
      Resolve(AppliedAll(Unset, opts), h, system) == Failure(Fault(SudoMissing))
      && HasPrefix(SudoMissing, "sudo binary not found")
  {
    var opts := [Some(WithBinary("bluetoothctl")), Some(WithSudoPath(""))];
    assert opts[..1][..0] == [] && opts[..2] == opts;
    assert AppliedAll(Unset, opts[..1]) == Unset.(binary := "bluetoothctl");
    assert AppliedAll(Unset, opts) == Settings("bluetoothctl", "", false, "", false, true, None);
    assert SudoMissing[..|SudoMissingHead|] == SudoMissingHead;
  }

  /** A non-root user whose PATH finds sudo only in a relative directory cannot build a
      runner: exec.LookPath refuses that sudo with exec.ErrDot, so no sudo path is set. */
  lemma SudoFoundOnlyRelative(h: Host, system: Primitive)
    requires h.euid != 0
    requires "sudo" in h.executables && h.executables["sudo"].FoundRelative?
    ensures Resolve(AppliedAll(Unset, [Some(WithBinary("bluetoothctl"))]), h, system) == Failure(Fault(SudoMissing))
  {
    AppliedAllOne(Unset, WithBinary("bluetoothctl"));
  }

  class Runner {
    var binary: string
    var sudoPath: string
    var useSudo: bool
    var adapter: string
    var useSudoSet: bool
    var sudoSet: bool
    var run: Option<Primitive>

    function State(): Settings
      reads this
    {
      Settings(binary, sudoPath, useSudo, adapter, useSudoSet, sudoSet, run)
    }

    /** &Runner{}. */
    constructor Empty()
      ensures State() == Unset
    {
      binary, sudoPath, useSudo, adapter := "", "", false, "";
      useSudoSet, sudoSet, run := false, false, None;
    }

    /** Calls one option closure on the runner. */
    method Apply(opt: RunnerOption)
      modifies this
      ensures State() == Applied(old(State()), opt)
    {
      ghost var s := State();
      match opt {
        case WithBinary(path) => binary := path;
        case WithSudoPath(path) => sudoPath := path; sudoSet := true;
        case WithUseSudo(use) => useSudo := use; useSudoSet := true;
        case WithAdapter(a) => adapter := TrimSpace(a);
        case WithCommandRunner(r) => run := Some(r);
      }
      assert State() == Applied(s, opt);
    }

    /** The second half of NewRunner: locates the binaries left unset, defaults UseSudo
        from the effective user id, refuses escalation without sudo and falls back to
        `system`, updating the fields as it goes. */
    method ResolveFields(h: Host, system: Primitive) returns (err: Option<Error>)
      modifies this
      ensures err.None? <==> Resolve(old(State()), h, system).Success?
      ensures err.Some? ==> err.value == Resolve(old(State()), h, system).error
      ensures err.None? ==> State() == Resolve(old(State()), h, system).value
    {
      ghost var s := State();
      if binary == "" {
        var path := LookPath(h, "bluetoothctl");
        if path.Failure? {
          return Some(Wrapped("locate bluetoothctl", path.error));
        }
        binary := path.value;
      }
      if sudoPath == "" && !sudoSet {
        var path := LookPath(h, "sudo");
        if path.Success? {
          sudoPath := path.value;
        }
      }
      if !useSudoSet {
        if h.euid != 0 {
          useSudo := true;
        }
      }
      if useSudo && sudoPath == "" {
        return Some(Fault(SudoMissing));
      }
      if run.None? {
        run := Some(system);
      }
      return None;
    }

    /** exec: assembles the final argument vector by appending, then calls the primitive. */
    method Exec(ctx: Option<Context>, args: seq<string>) returns (out: string, err: Option<Error>)
      requires run.Some?
      ensures Outcome(out, err) == ExecSpec(State(), ctx, args)
    {
      if ctx.None? {
        return "", Some(NilExecContext);
      }
      var name: string;
      var finalArgs: seq<string> := [];
      if adapter != "" {
        finalArgs := finalArgs + ["--adapter", adapter];
      }
      finalArgs := finalArgs + args;
      if useSudo {
        name := sudoPath;
        finalArgs := [binary] + finalArgs;
      } else {
        name := binary;
      }
      assert useSudo ==> finalArgs == [binary] + AdapterPrefix(adapter) + args;
      assert !useSudo ==> finalArgs == AdapterPrefix(adapter) + args;
      var reply := Call(run.value, Invocation(name, finalArgs));
      if reply.err.Some? {
        return "", Some(CommandError(args, reply.output, reply.err.value));
      }
      return reply.output, None;
    }

    /** Scan. */
    method Scan(ctx: Option<Context>, duration: Duration) returns (out: string, err: Option<Error>)
      requires run.Some?
      ensures Outcome(out, err) == ScanSpec(State(), ctx, duration)
    {
      if ctx.None? {
        return "", Some(NilScanContext);
      }
      var d := duration;
      if d <= 0 {
        d := 15 * Second;
      }
      var secs := d / Second;
      if secs <= 0 {
        secs := 1;
      }
      var args := ["--timeout", DecimalString(secs), "scan", "on"];
      var output, e := Exec(ctx, args);
      if e.Some? {
        return "", e;
      }
      return TrimSpace(output), None;
    }

    /** simpleDeviceCommand. */
    method SimpleDeviceCommand(ctx: Option<Context>, command: string, address: string) returns (out: string, err: Option<Error>)
      requires run.Some?
      ensures Outcome(out, err) == DeviceSpec(State(), ctx, command, address)
    {
      if ctx.None? {
        return "", Some(Fault(NilContextPassed + command));
      }
      var addr := TrimSpace(address);
      if addr == "" {
        return "", Some(Fault(AddressRequired + command));
      }
      var output, e := Exec(ctx, [command, addr]);
      if e.Some? {
        return "", e;
      }
      return TrimSpace(output), None;
    }

    method Pair(ctx: Option<Context>, address: string) returns (out: string, err: Option<Error>)
      requires run.Some?
      ensures Outcome(out, err) == DeviceSpec(State(), ctx, "pair", address)
    {
      out, err := SimpleDeviceCommand(ctx, "pair", address);
    }

    method Connect(ctx: Option<Context>, address: string) returns (out: string, err: Option<Error>)
      requires run.Some?
      ensures Outcome(out, err) == DeviceSpec(State(), ctx, "connect", address)
    {
      out, err := SimpleDeviceCommand(ctx, "connect", address);
    }

    method Disconnect(ctx: Option<Context>, address: string) returns (out: string, err: Option<Error>)
      requires run.Some?
      ensures Outcome(out, err) == DeviceSpec(State(), ctx, "disconnect", address)
    {
      out, err := SimpleDeviceCommand(ctx, "disconnect", address);
    }
  }

  /** NewRunner: applies the options in order, then resolves the binaries, the sudo
      default and the primitive, mutating the runner step by step. `system` stands for
      the default primitive that starts real processes. */
  method NewRunner(opts: seq<Option<RunnerOption>>, h: Host, system: Primitive) returns (r: Runner?, err: Option<Error>)
    ensures err.None? <==> Resolve(AppliedAll(Unset, opts), h, system).Success?
    ensures err.Some? ==> r == null && err.value == Resolve(AppliedAll(Unset, opts), h, system).error
    ensures err.None? ==> r != null && fresh(r) && r.State() == Resolve(AppliedAll(Unset, opts), h, system).value
  {
    var runner := new Runner.Empty();
    var i := 0;
    while i < |opts|
      invariant 0 <= i <= |opts|
      invariant runner.State() == AppliedAll(Unset, opts[..i])
    {
      assert opts[..i + 1][..i] == opts[..i];
      if opts[i].Some? {
        runner.Apply(opts[i].value);
      }
      i := i + 1;
    }
    assert opts[..i] == opts;
    err := runner.ResolveFields(h, system);
    if err.Some? {
      return null, err;
    }
    return runner, None;
  }
}
