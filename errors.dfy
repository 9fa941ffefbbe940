/** Go `error` values as the core creates, wraps and inspects them.

    Sentinels (`fs.ErrPermission`, `io.EOF`, `context.Canceled`, ...) are constructors
    without payload; `fmt.Errorf("...: %w", err)` and `*fs.PathError` are `Wrapped`;
    the two structured errors of the core, `*daemon.AdapterAccessError` and
    `*bluetoothctl.CommandError`, are constructors of their own, so a caller can
    recognise them by shape rather than by their message. */
module Errors {
  import opened Wrappers
  import opened Text

  datatype Error =
    | Fault(message: string)                                  // errors.New, or fmt.Errorf without %w
    | Wrapped(context: string, cause: Error)                  // fmt.Errorf("<context>: %w", cause)
    | ErrPermission                                           // fs.ErrPermission
    | ErrNotExist                                             // syscall.ENOENT, which matches fs.ErrNotExist
    | ErrNotFound                                             // exec.ErrNotFound
    | ErrDot                                                  // exec.ErrDot
    | EOF                                                     // io.EOF
    | Canceled                                                // context.Canceled
    | DeadlineExceeded                                        // context.DeadlineExceeded
    | AdapterAccessError(path: string, err: Error)            // daemon.AdapterAccessError
    | CommandError(args: seq<string>, output: string, err: Error)  // bluetoothctl.CommandError

  /** The error an `*fs.PathError` reports: "<op> <path>: <cause>". */
  function PathError(op: string, path: string, cause: Error): Error
  {
    Wrapped(op + " " + path, cause)
  }

  /** The `Unwrap` method: the error this one wraps, if any. For a CommandError and an
      AdapterAccessError it is the underlying cause. */
  function Unwrap(e: Error): (r: Option<Error>)
    ensures e.CommandError? ==> r == Some(e.err)
    ensures e.AdapterAccessError? ==> r == Some(e.err)
    ensures r.Some? ==> r.value < e
    ensures (e.Fault? || e.ErrPermission? || e.ErrNotExist? || e.ErrNotFound? || e.ErrDot? || e.EOF? || e.Canceled? || e.DeadlineExceeded?) ==> r.None?
  {
    match e
    case Wrapped(_, cause) => Some(cause)
    case AdapterAccessError(_, err) => Some(err)
    case CommandError(_, _, err) => Some(err)
    case _ => None
  }

  /** errors.Is against a sentinel: the target appears somewhere on the Unwrap chain. */
  predicate Is(e: Error, target: Error)
    decreases e
  {
    e == target || (Unwrap(e).Some? && Is(Unwrap(e).value, target))
  }

  /** errors.Is sees through every layer of wrapping: whatever the cause matches, the
      wrapper matches too. */
  lemma {:induction false} IsThroughChain(e: Error, mid: Error, target: Error)
    requires Is(e, mid) && Is(mid, target)
    ensures Is(e, target)
    decreases e
  {
    if e != mid {
      IsThroughChain(Unwrap(e).value, mid, target);
    }
  }

  /** A sentinel matches only itself and the errors wrapping it: two different
      sentinels never match each other. */
  lemma SentinelsDistinct(a: Error, b: Error)
    requires Unwrap(a).None? && a != b
    ensures !Is(a, b)
  {
  }

  /** errors.As for *bluetoothctl.CommandError: the first CommandError on the chain. */
  function AsCommandError(e: Error): (r: Option<Error>)
    ensures r.Some? ==> r.value.CommandError? && Is(e, r.value)
    ensures e.CommandError? ==> r == Some(e)
    ensures r.None? ==> forall args, out, cause :: !Is(e, CommandError(args, out, cause))
    decreases e
  {
    if e.CommandError? then Some(e)
    else match Unwrap(e)
      case None => None
      case Some(inner) => AsCommandError(inner)
  }

  const NotFoundText := "executable file not found in $PATH"
  const DotText := "cannot run executable found relative to current directory"
  const DeadlineText := "context deadline exceeded"
  const AccessErrorPrefix := "read sysfs adapters at "

  /** The text of the ENOENT that the host reports for a missing path; it, and not
      fs.ErrNotExist's own "file does not exist", is what an *fs.PathError prints. */
  const NotExistText := "no such file or directory"

  /** The `Error()` string of each error. */
  function Message(e: Error): string
    decreases e
  {
    match e
    case Fault(m) => m
    case Wrapped(c, cause) => c + ": " + Message(cause)
    case ErrPermission => "permission denied"
    case ErrNotExist => NotExistText
    case ErrNotFound => NotFoundText
    case ErrDot => DotText
    case EOF => "EOF"
    case Canceled => "context canceled"
    case DeadlineExceeded => DeadlineText
    case AdapterAccessError(path, err) => AccessErrorPrefix + path + ": " + Message(err)
    case CommandError(args, _, err) => "bluetoothctl " + Join(args, " ") + " failed: " + Message(err)
  }

  /** CommandError.Error names the operation's own arguments and the cause; the captured
      output is carried in the value but never spliced into the message. */
  lemma CommandErrorMessage(args: seq<string>, output: string, output': string, cause: Error)
    ensures HasPrefix(Message(CommandError(args, output, cause)), "bluetoothctl " + Join(args, " ") + " failed: ")
    ensures HasSuffix(Message(CommandError(args, output, cause)), Message(cause))
    ensures Message(CommandError(args, output, cause)) == Message(CommandError(args, output', cause))
  {
  }
}
