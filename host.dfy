/** What the core asks of the operating system, as plain data: file contents,
    directory listings, symlink resolution, environment variables, the user's
    configuration directory, executables on PATH and the effective user id.
    Also the two standard-library values threaded through the core:
    `context.Context` and `time.Duration`. */
module Host {
  import opened Wrappers
  import opened Errors

  /** time.Duration: a signed 64-bit count of nanoseconds. */
  const MinDuration: int := -0x8000_0000_0000_0000
  const MaxDuration: int := 0x7FFF_FFFF_FFFF_FFFF
  type Duration = d: int | MinDuration <= d <= MaxDuration
  const Second: Duration := 1_000_000_000

  /** A context.Context. `doneAfter` says how many calls of ctx.Err() return nil before
      the context reports itself done (None: it never is); once done it stays done,
      reporting `err` from Err() and `cause` from context.Cause. */
  datatype Context = Context(doneAfter: Option<nat>, err: Error, cause: Option<Error>)

  /** context.Background(): never done. */
  const Background := Context(None, Canceled, None)

  /** What ctx.Err() returns on the k-th poll (counting from 0). */
  function PollErr(ctx: Context, k: nat): (r: Option<Error>)
    ensures r.Some? ==> r == Some(ctx.err)
    ensures r.Some? <==> ctx.doneAfter.Some? && ctx.doneAfter.value <= k
  {
    if ctx.doneAfter.Some? && ctx.doneAfter.value <= k then Some(ctx.err) else None
  }

  /** context.Cause of a context that is done: the recorded cause, else ctx.Err(). */
  function Cause(ctx: Context): (r: Error)
    ensures ctx.cause.None? ==> r == ctx.err
    ensures ctx.cause.Some? ==> r == ctx.cause.value
  {
    if ctx.cause.Some? then ctx.cause.value else ctx.err
  }

  /** One os.DirEntry: its name and the type bits the core tests. */
  datatype DirEntry = DirEntry(name: string, isDir: bool, isSymlink: bool)

  /** Where a PATH search finds an executable: in an absolute directory, or only in
      a relative one (such as "." or an empty PATH entry), which exec.LookPath refuses. */
  datatype Lookup = Found(path: string) | FoundRelative(path: string)

  datatype Host = Host(
    files: map<string, Result<string, Error>>,          // os.ReadFile, where it does not fail with "not exist"
    dirs: map<string, Result<seq<DirEntry>, Error>>,    // os.ReadDir, likewise; entries in any order
    links: map<string, string>,                         // filepath.EvalSymlinks, where it succeeds
    env: map<string, string>,                           // the process environment
    configDir: Result<string, Error>,                   // os.UserConfigDir
    executables: map<string, Lookup>,                   // what a PATH search finds for each name
    euid: int)                                          // os.Geteuid

  /** os.ReadFile: a path the host does not know does not exist. */
  function ReadFile(h: Host, path: string): Result<string, Error>
  {
    if path in h.files then h.files[path] else Failure(PathError("open", path, ErrNotExist))
  }

  /** os.ReadDir. The program's os.ReadDir sorts the entries by file name; the host may
      list them in any order, so what is proved about "directory order" holds in
      particular for name order. */
  function ReadDir(h: Host, path: string): Result<seq<DirEntry>, Error>
  {
    if path in h.dirs then h.dirs[path] else Failure(PathError("open", path, ErrNotExist))
  }

  /** filepath.EvalSymlinks, with its error collapsed to None. */
  function EvalSymlinks(h: Host, path: string): Option<string>
  {
    if path in h.links then Some(h.links[path]) else None
  }

  /** os.Getenv: "" when unset. */
  function Getenv(h: Host, key: string): string
  {
    if key in h.env then h.env[key] else ""
  }

  /** exec.LookPath: the path found, or an *exec.Error for the name that wraps
      exec.ErrDot when the executable was found only relative to the current
      directory, and exec.ErrNotFound when it was not found at all. */
  function LookPath(h: Host, name: string): (r: Result<string, Error>)
    ensures name !in h.executables ==> r.Failure? && Is(r.error, ErrNotFound) && !Is(r.error, ErrDot)
    ensures name in h.executables && h.executables[name].FoundRelative? ==>
      r.Failure? && Is(r.error, ErrDot) && !Is(r.error, ErrNotFound)
    ensures name in h.executables && h.executables[name].Found? ==> r == Success(h.executables[name].path)
  {
    if name !in h.executables then Failure(Wrapped("exec: \"" + name + "\"", ErrNotFound))
    else match h.executables[name]
      case Found(path) => Success(path)
      case FoundRelative(_) => Failure(Wrapped("exec: \"" + name + "\"", ErrDot))
  }

  /** filepath.Join of two non-empty elements (path cleaning is not modelled). */
  function JoinPath(dir: string, name: string): string
  {
    dir + "/" + name
  }
}
