/** Configuration resolution and loading (internal/config/config.go). YAML decoding
    is a parameter: `decode` maps the file's bytes to the daemon section it yields
    over the zero values, or to the decoder's error. */
module Config {
  import opened Wrappers
  import opened Errors
  import opened Host

  datatype DaemonConfig = DaemonConfig(preferredAdapter: string)

  /** Config: where it came from, whether a file was decoded, and its daemon section. */
  datatype Config = Config(source: string, loaded: bool, daemon: DaemonConfig)

  const EnvConfig := "PEARED_CONFIG"

  /** ResolvePath: the explicit path, else $PEARED_CONFIG, else
      <user config dir>/peared/config.yaml. */
  function ResolvePath(explicit: string, h: Host): (r: Result<string, Error>)
    ensures r.Success? ==> r.value != ""
  {
    if explicit != "" then Success(explicit)
    else if Getenv(h, EnvConfig) != "" then Success(Getenv(h, EnvConfig))
    else match h.configDir
      case Failure(e) => Failure(Wrapped("resolve config dir", e))
      case Success(dir) => Success(JoinPath(JoinPath(dir, "peared"), "config.yaml"))
  }

  /** The three sources are tried in order, and the first non-empty one wins; a failure
      of the last is the only error, and it still answers errors.Is for its cause. */
  lemma ResolvePrecedence(explicit: string, h: Host)
    ensures explicit != "" ==> ResolvePath(explicit, h) == Success(explicit)
    ensures explicit == "" && Getenv(h, EnvConfig) != "" ==> ResolvePath(explicit, h) == Success(Getenv(h, EnvConfig))
    ensures explicit == "" && Getenv(h, EnvConfig) == "" && h.configDir.Success? ==>
      ResolvePath(explicit, h) == Success(h.configDir.value + "/peared/config.yaml")
    ensures ResolvePath(explicit, h).Failure? <==>
      explicit == "" && Getenv(h, EnvConfig) == "" && h.configDir.Failure?
    ensures ResolvePath(explicit, h).Failure? ==> Is(ResolvePath(explicit, h).error, h.configDir.error)
  {
    if explicit == "" && Getenv(h, EnvConfig) == "" && h.configDir.Success? {
      var dir := h.configDir.value;
      assert JoinPath(JoinPath(dir, "peared"), "config.yaml") == dir + "/peared/config.yaml";
    }
  }

  /** The quoted path of `%q`, for a path with no quote, backslash or control character. */
  function Quoted(path: string): string
  {
    "\"" + path + "\""
  }

  /** What Load returns, as a value. */
  function LoadResult(path: string, h: Host, decode: string -> Result<DaemonConfig, Error>): Result<Config, Error>
  {
    match ResolvePath(path, h)
    case Failure(e) => Failure(e)
    case Success(resolved) =>
      match ReadFile(h, resolved)
      case Failure(e) =>
        if Is(e, ErrNotExist) then Success(Config(resolved, false, DaemonConfig("")))
        else Failure(Wrapped("read config " + Quoted(resolved), e))
      case Success(data) =>
        match decode(data)
        case Failure(e) => Failure(Wrapped("decode config " + Quoted(resolved), e))
        case Success(daemon) => Success(Config(resolved, true, daemon))
  }

  /** Load: builds the config with its source, reads and decodes the file into it, and
      marks it loaded. */
  method Load(path: string, h: Host, decode: string -> Result<DaemonConfig, Error>) returns (cfg: Option<Config>, err: Option<Error>)
    ensures err.None? <==> LoadResult(path, h, decode).Success?
    ensures err.None? ==> cfg == Some(LoadResult(path, h, decode).value)
    ensures err.Some? ==> cfg.None? && err.value == LoadResult(path, h, decode).error
  {
    var resolved := ResolvePath(path, h);
    if resolved.Failure? {
      return None, Some(resolved.error);
    }
    var c := Config(resolved.value, false, DaemonConfig(""));
    var data := ReadFile(h, resolved.value);
    if data.Failure? {
      if Is(data.error, ErrNotExist) {
        return Some(c), None;
      }
      return None, Some(Wrapped("read config " + Quoted(resolved.value), data.error));
    }
    var decoded := decode(data.value);
    if decoded.Failure? {
      return None, Some(Wrapped("decode config " + Quoted(resolved.value), decoded.error));
    }
    c := c.(daemon := decoded.value);
    c := c.(source := resolved.value, loaded := true);
    return Some(c), None;
  }

  /** A missing file is not an error: the defaults come back, marked not loaded, with
      the resolved path as their source. */
  lemma LoadMissingFile(path: string, h: Host, decode: string -> Result<DaemonConfig, Error>)
    requires ResolvePath(path, h).Success?
    requires var p := ResolvePath(path, h).value; p !in h.files
    ensures LoadResult(path, h, decode) == Success(Config(ResolvePath(path, h).value, false, DaemonConfig("")))
  {
    var p := ResolvePath(path, h).value;
    assert Is(ErrNotExist, ErrNotExist);
    assert Is(ReadFile(h, p).error, ErrNotExist);
  }

  /** A config comes back loaded exactly when the file was read and decoded; its source is
      always the resolved path; every other failure is an error and no config. */
  lemma LoadOutcomes(path: string, h: Host, decode: string -> Result<DaemonConfig, Error>)
    ensures LoadResult(path, h, decode).Success? ==>
      ResolvePath(path, h).Success? && LoadResult(path, h, decode).value.source == ResolvePath(path, h).value
    ensures LoadResult(path, h, decode).Success? && LoadResult(path, h, decode).value.loaded <==>
      && ResolvePath(path, h).Success?
      && ReadFile(h, ResolvePath(path, h).value).Success?
      && decode(ReadFile(h, ResolvePath(path, h).value).value).Success?
    ensures LoadResult(path, h, decode).Success? && LoadResult(path, h, decode).value.loaded ==>
      LoadResult(path, h, decode).value.daemon == decode(ReadFile(h, ResolvePath(path, h).value).value).value
    ensures (ResolvePath(path, h).Success? && ReadFile(h, ResolvePath(path, h).value).Failure? &&
             !Is(ReadFile(h, ResolvePath(path, h).value).error, ErrNotExist)) ==>
        LoadResult(path, h, decode).Failure? && Is(LoadResult(path, h, decode).error, ReadFile(h, ResolvePath(path, h).value).error)
  {
  }
}
