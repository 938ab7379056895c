/** Runtime values and exceptions shared by the dict and os models.
    Objects are values here; object identity and the interpreter's own
    comparison are passed to the operations that need them. */
module Objects {

  datatype Option<+T> = None | Some(value: T) {
    function GetOr(default: T): T {
      match this
      case Some(v) => v
      case None => default
    }
  }

  /** A guest-level object as far as the modelled code inspects it. */
  datatype Obj =
    | PyNone
    | Int(i: int)
    | Str(s: string)
    | Tuple(items: seq<Obj>)
    | Opaque(id: nat)

  datatype ExcKind =
    | KeyError
    | TypeError
    | ValueError
    | RuntimeError
    | StopIteration
    | OverflowError
    | UnicodeError
    | OSError
    | FileNotFoundError
    | PermissionError
    | FileExistsError
    | BlockingIOError

  /** A raised exception: `Exception(kind, arg)` is `kind(arg)`; an
      `OsException` carries the operating system's message (not modelled)
      and, when one was set, its `errno` attribute. */
  datatype Exc =
    | Exception(kind: ExcKind, arg: Obj)
    | OsException(kind: ExcKind, errno: Option<Obj>)

  /** The outcome of a fallible call (`PyResult`). */
  datatype Result<+T> = Ok(value: T) | Err(exc: Exc)

  function Raise<T>(kind: ExcKind, msg: string): Result<T> {
    Err(Exception(kind, Str(msg)))
  }
}
