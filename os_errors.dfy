/** How `os` turns Rust `std::io::Error` and `nix::Error` values into Python
    exceptions. Errno values are Linux's. */
module OsErrors {
  import opened Objects

  const EPERM := 1
  const EAGAIN := 11
  const EWOULDBLOCK := 11
  const EALREADY := 114
  const EINPROGRESS := 115

  /** The `ErrorKind`s the mapping distinguishes; every other kind is
      `OtherKind`. */
  datatype IoErrorKind = NotFound | PermissionDenied | AlreadyExists | WouldBlock | OtherKind

  /** An `io::Error`: its kind and, when it came from the OS, the raw errno. */
  datatype IoError = IoError(kind: IoErrorKind, raw: Option<int>)

  datatype NixError = InvalidPath | InvalidUtf8 | UnsupportedOperation | Sys(errno: int)

  /** The outcome of a fallible `std` or `nix` call. */
  datatype IoResult<+T> = IoOk(value: T) | IoErr(err: IoError)
  datatype NixResult<+T> = NixOk(value: T) | NixErr(err: NixError)

  predicate IsBlockingErrno(e: int) {
    e == EAGAIN || e == EALREADY || e == EWOULDBLOCK || e == EINPROGRESS
  }

  /** `IntoPyException for io::Error`: the four named kinds decide the
      class; for any other kind an EAGAIN, EALREADY, EWOULDBLOCK or
      EINPROGRESS errno makes it BlockingIOError and anything else OSError.
      `errno` is always set, to the raw errno or to None. */
  function IoErrorToException(e: IoError): (x: Exc)
    ensures x.OsException?
    ensures x.errno == Some(if e.raw.Some? then Int(e.raw.value) else PyNone)
    ensures x.kind == BlockingIOError <==>
      e.kind == WouldBlock || (e.kind == OtherKind && e.raw.Some? && e.raw.value in {EAGAIN, EALREADY, EINPROGRESS})
    ensures e.kind == NotFound ==> x.kind == FileNotFoundError
    ensures e.kind == PermissionDenied ==> x.kind == PermissionError
    ensures e.kind == AlreadyExists ==> x.kind == FileExistsError
    ensures e.kind == OtherKind ==> x.kind in {BlockingIOError, OSError}
  {
    var kind :=
      match e.kind
      case NotFound => FileNotFoundError
      case PermissionDenied => PermissionError
      case AlreadyExists => FileExistsError
      case WouldBlock => BlockingIOError
      case OtherKind => if e.raw.Some? && IsBlockingErrno(e.raw.value) then BlockingIOError else OSError;
    OsException(kind, Some(if e.raw.Some? then Int(e.raw.value) else PyNone))
  }

  /** `IntoPyException for nix::Error`: a path or UTF-8 problem and an
      unsupported operation keep no errno; a system error is PermissionError
      for EPERM and OSError otherwise, with `errno` set. */
  function NixErrorToException(e: NixError): (x: Exc)
    ensures e.Sys? <==> x.OsException? && x.errno.Some?
    ensures e.Sys? ==> x.errno == Some(Int(e.errno)) && (x.kind == PermissionError <==> e.errno == EPERM)
    ensures e.InvalidPath? ==> x.kind == FileNotFoundError
    ensures e.InvalidUtf8? ==> x.kind == UnicodeError
    ensures e.UnsupportedOperation? ==> x.kind == RuntimeError
  {
    match e
    case InvalidPath => OsException(FileNotFoundError, None)
    case InvalidUtf8 => OsException(UnicodeError, None)
    case UnsupportedOperation => Exception(RuntimeError, PyNone)
    case Sys(n) => OsException(if n == EPERM then PermissionError else OSError, Some(Int(n)))
  }
}
