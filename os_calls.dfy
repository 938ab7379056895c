/** The argument checks and conversions that `os` functions perform before
    handing over to the operating system: `dir_fd` rejection, `open` flag
    decoding, `utime` times, `execv` arguments, `chown` ids and the
    environment block of the `exec`/`spawn` family. The system calls
    themselves are parameters. Flag values are Linux's. */
module OsCalls {
  import opened Objects
  import opened EntryStore
  import opened DictObject
  import opened OsErrors

  type Bytes = seq<bv8>

  const NUL: bv8 := 0
  const EQUALS: bv8 := 0x3D

  // ---------------------------------------------------------------------
  // make_path

  const DIR_FD_MSG := "dir_fd not supported yet"

  /** `make_path`: any `dir_fd` is refused with OSError, otherwise the path
      is used as given. */
  function MakePath(path: Bytes, dirFd: Option<int>): (r: Result<Bytes>)
    ensures dirFd.Some? <==> r == Raise(OSError, DIR_FD_MSG)
    ensures dirFd.None? <==> r == Ok(path)
  {
    if dirFd.Some? then Raise(OSError, DIR_FD_MSG) else Ok(path)
  }

  // ---------------------------------------------------------------------
  // open

  const O_RDONLY: bv32 := 0
  const O_WRONLY: bv32 := 1
  const O_RDWR: bv32 := 2
  const O_ACCMODE: bv32 := 3
  const O_CREAT: bv32 := 0x40
  const O_EXCL: bv32 := 0x80
  const O_APPEND: bv32 := 0x400

  /** The `std::fs::OpenOptions` settings `open` makes. */
  datatype OpenOptions = OpenOptions(read: bool, write: bool, append: bool, create: bool, createNew: bool)

  predicate HasFlag(flags: bv32, c: bv32) {
    flags & c == c
  }

  /** The flag decoding in `open`. The access mode tests O_WRONLY, then
      O_RDWR, then O_RDONLY (which, being 0, always matches), so read-only,
      write-only and read-write come out as POSIX means them, and the
      invalid access mode 3 counts as write-only. O_APPEND sets append;
      O_CREAT sets create, or create-new together with O_EXCL. */
  function OpenOptionsFor(flags: bv32): (o: OpenOptions)
    ensures flags & O_ACCMODE == O_RDONLY ==> o.read && !o.write
    ensures flags & O_ACCMODE == O_WRONLY ==> !o.read && o.write
    ensures flags & O_ACCMODE == O_RDWR ==> o.read && o.write
    ensures flags & O_ACCMODE == O_ACCMODE ==> !o.read && o.write
    ensures o.append <==> flags & O_APPEND != 0
    ensures o.create <==> flags & O_CREAT != 0 && flags & O_EXCL == 0
    ensures o.createNew <==> flags & O_CREAT != 0 && flags & O_EXCL != 0
  {
    var access :=
      if HasFlag(flags, O_WRONLY) then OpenOptions(false, true, false, false, false)
      else if HasFlag(flags, O_RDWR) then OpenOptions(true, true, false, false, false)
      else if HasFlag(flags, O_RDONLY) then OpenOptions(true, false, false, false, false)
      else OpenOptions(false, false, false, false, false);
    var appended := if HasFlag(flags, O_APPEND) then access.(append := true) else access;
    if HasFlag(flags, O_CREAT) then
      if HasFlag(flags, O_EXCL) then appended.(createNew := true) else appended.(create := true)
    else appended
  }

  /** `open`: `dir_fd` is refused before anything else; then the file is
      opened (the `opener` call, given the path, the decoded options and the
      raw flags) and its descriptor returned, or its error raised. */
  function Open(path: Bytes, flags: bv32, dirFd: Option<int>,
                opener: (Bytes, OpenOptions, bv32) -> IoResult<int>): (r: Result<int>)
    ensures dirFd.Some? ==> r == Raise(OSError, DIR_FD_MSG)
    ensures dirFd.None? ==>
      r == match opener(path, OpenOptionsFor(flags), flags)
           { case IoOk(fd) => Ok(fd) case IoErr(e) => Err(IoErrorToException(e)) }
  {
    match MakePath(path, dirFd)
    case Err(e) => Err(e)
    case Ok(name) =>
      match opener(name, OpenOptionsFor(flags), flags)
      case IoOk(fd) => Ok(fd)
      case IoErr(e) => Err(IoErrorToException(e))
  }

  // ---------------------------------------------------------------------
  // utime

  const I64_MIN: int := -0x8000_0000_0000_0000
  const I64_MAX: int := 0x7FFF_FFFF_FFFF_FFFF
  const NANOS_PER_SEC: int := 1_000_000_000

  const TIMES_MSG := "utime: 'times' must be either a tuple of two ints or None"
  const NS_MSG := "utime: 'ns' must be a tuple of two ints"
  const BOTH_MSG := "utime: you may specify either 'times' or 'ns' but not both"

  /** An `int` that fits in `i64`, as `to_i64` reads it. */
  function AsI64(o: Obj): (r: Option<int>)
    ensures r.Some? <==> o.Int? && I64_MIN <= o.i <= I64_MAX
    ensures r.Some? ==> r.value == o.i
  {
    if o.Int? && I64_MIN <= o.i <= I64_MAX then Some(o.i) else None
  }

  /** `parse_tup`: a pair of `i64`-sized ints. */
  function ParseTup(t: seq<Obj>): (r: Option<(int, int)>)
    ensures r.Some? <==> |t| == 2 && AsI64(t[0]).Some? && AsI64(t[1]).Some?
    ensures r.Some? ==> r.value == (t[0].i, t[1].i)
  {
    if |t| != 2 then None
    else match (AsI64(t[0]), AsI64(t[1]))
      case (Some(a), Some(m)) => Some((a, m))
      case _ => None
  }

  /** Euclidean division of a non-negative number: the quotient is the
      largest multiple of `b` not above `a`. */
  lemma DivBounds(a: int, b: int)
    requires a >= 0 && b > 0
    ensures a / b >= 0 && (a / b) * b <= a < (a / b) * b + b
  {
    var q, r := a / b, a % b;
    assert a == q * b + r && 0 <= r < b;
  }

  /** Rust's `/` on integers: the quotient rounded toward zero. */
  function TruncDiv(a: int, b: int): (q: int)
    requires b > 0
    ensures a >= 0 ==> q >= 0 && q * b <= a < q * b + b
    ensures a < 0 ==> q <= 0 && q * b - b < a <= q * b
  {
    if a >= 0 then
      DivBounds(a, b);
      a / b
    else
      DivBounds(-a, b);
      var q := (-a) / b;
      assert (-q) * b == -(q * b);
      -q
  }

  /** `utime`'s access and modification times: `times` as given, `ns`
      divided by 10^9 rounding toward zero, neither the current time, both a
      ValueError. A tuple that is not two `i64`-sized ints is a TypeError
      naming the argument. */
  function UtimeTimes(times: Option<seq<Obj>>, ns: Option<seq<Obj>>, now: int): (r: Result<(int, int)>)
    ensures times.Some? && ns.Some? ==> r == Raise(ValueError, BOTH_MSG)
    ensures times.None? && ns.None? ==> r == Ok((now, now))
    ensures times.Some? && ns.None? ==>
      r == if ParseTup(times.value).Some? then Ok(ParseTup(times.value).value) else Raise(TypeError, TIMES_MSG)
    ensures times.None? && ns.Some? && ParseTup(ns.value).None? ==> r == Raise(TypeError, NS_MSG)
    ensures times.None? && ns.Some? && ParseTup(ns.value).Some? ==>
      var (a, m) := ParseTup(ns.value).value;
      r.Ok? && r.value == (TruncDiv(a, NANOS_PER_SEC), TruncDiv(m, NANOS_PER_SEC))
  {
    match (times, ns)
    case (Some(t), None) =>
      (match ParseTup(t) case Some(p) => Ok(p) case None => Raise(TypeError, TIMES_MSG))
    case (None, Some(n)) =>
      (match ParseTup(n)
       case Some((a, m)) => Ok((TruncDiv(a, NANOS_PER_SEC), TruncDiv(m, NANOS_PER_SEC)))
       case None => Raise(TypeError, NS_MSG))
    case (None, None) => Ok((now, now))
    case (Some(_), Some(_)) => Raise(ValueError, BOTH_MSG)
  }

  /** Nanosecond times become whole seconds toward zero, so a time just
      before the epoch becomes the epoch itself, and the result stays within
      the `i64` range. */
  lemma UtimeNsTowardZero(a: int, m: int)
    requires I64_MIN <= a <= I64_MAX && I64_MIN <= m <= I64_MAX
    ensures var r := UtimeTimes(None, Some([Int(a), Int(m)]), 0);
      r.Ok? && I64_MIN <= r.value.0 <= I64_MAX && I64_MIN <= r.value.1 <= I64_MAX
      && (-NANOS_PER_SEC < a < NANOS_PER_SEC ==> r.value.0 == 0)
  {
    var q := TruncDiv(a, NANOS_PER_SEC);
    var q' := TruncDiv(m, NANOS_PER_SEC);
    assert -NANOS_PER_SEC < a < NANOS_PER_SEC ==> q == 0;
    assert I64_MIN <= q <= I64_MAX;
    assert I64_MIN <= q' <= I64_MAX;
  }

  // ---------------------------------------------------------------------
  // execv

  const NUL_CHAR_MSG := "embedded null character"
  const ARGV_EMPTY_MSG := "execv() arg 2 must not be empty"
  const ARGV0_EMPTY_MSG := "execv() arg 2 first element cannot be empty"

  /** The checks `execv` makes before replacing the process: the path must
      have no NUL; then `argv` is converted element by element to C strings
      (`argv` is that conversion's outcome, its error propagated as is);
      then `argv` must have a first element, and that element must not be
      empty. A converted element never holds a NUL. */
  function ExecvArgs(path: string, argv: Result<seq<Bytes>>): (r: Result<()>)
    requires argv.Ok? ==> forall a | a in argv.value :: NUL !in a
    ensures r.Ok? <==> '\0' !in path && argv.Ok? && |argv.value| > 0 && |argv.value[0]| > 0
    ensures '\0' in path ==> r == Raise(ValueError, NUL_CHAR_MSG)
    ensures '\0' !in path && argv.Err? ==> r == Err(argv.exc)
    ensures '\0' !in path && argv == Ok([]) ==> r == Raise(ValueError, ARGV_EMPTY_MSG)
    ensures '\0' !in path && argv.Ok? && argv.value != [] && argv.value[0] == [] ==> r == Raise(ValueError, ARGV0_EMPTY_MSG)
  {
    if '\0' in path then Raise(ValueError, NUL_CHAR_MSG)
    else match argv
      case Err(e) => Err(e)
      case Ok(args) =>
        if args == [] then Raise(ValueError, ARGV_EMPTY_MSG)
        else if args[0] == [] then Raise(ValueError, ARGV0_EMPTY_MSG)
        else Ok(())
  }

  // ---------------------------------------------------------------------
  // chown

  const ISIZE_MIN: int := -0x8000_0000_0000_0000
  const ISIZE_MAX: int := 0x7FFF_FFFF_FFFF_FFFF
  const U32_LIMIT: int := 0x1_0000_0000

  /** What `isize::try_from_object` accepted. */
  newtype Isize = x: int | ISIZE_MIN <= x <= ISIZE_MAX

  /** A `u32` id (`Uid`, `Gid`). */
  newtype U32 = x: int | 0 <= x < 0x1_0000_0000

  const UID_MSG := "Specified uid is not valid."
  const GID_MSG := "Specified gid is not valid."
  const UID_RANGE_MSG := "uid is greater than maximum"
  const GID_RANGE_MSG := "gid is greater than maximum"

  /** One id of `chown` as written: a non-negative id is cut to `u32` (its
      low 32 bits), -1 means "leave unchanged", anything else is OSError
      with `msg`. */
  function ConvertIdAsWritten(id: Isize, msg: string): (r: Result<Option<U32>>)
    ensures id >= 0 ==> r.Ok? && r.value.Some? && r.value.value as int == id as int % U32_LIMIT
    ensures id == -1 ==> r == Ok(None)
    ensures id < -1 ==> r == Raise(OSError, msg)
  {
    if id >= 0 then Ok(Some((id as int % U32_LIMIT) as U32))
    else if id == -1 then Ok(None)
    else Raise(OSError, msg)
  }

  /** Cutting to `u32` makes uid 2^32 the superuser's id 0, and 2^32 + 1000
      the id 1000. */
  lemma ChownIdWraps()
    ensures ConvertIdAsWritten(U32_LIMIT as Isize, UID_MSG) == Ok(Some(0))
    ensures ConvertIdAsWritten((U32_LIMIT + 1000) as Isize, UID_MSG) == Ok(Some(1000))
  {
    assert U32_LIMIT % U32_LIMIT == 0;
    assert (U32_LIMIT + 1000) % U32_LIMIT == 1000;
  }

  /** `chown`'s ids as written: the uid is converted before the gid, each
      cut to `u32`. */
  function ChownIdsAsWritten(uid: Isize, gid: Isize): (r: Result<(Option<U32>, Option<U32>)>)
    ensures uid < -1 ==> r == Raise(OSError, UID_MSG)
    ensures uid >= -1 && gid < -1 ==> r == Raise(OSError, GID_MSG)
    ensures r.Ok? <==> uid >= -1 && gid >= -1
    ensures r.Ok? ==>
      (r.value.0.None? <==> uid == -1) && (r.value.1.None? <==> gid == -1)
      && (r.value.0.Some? ==> r.value.0.value as int == uid as int % U32_LIMIT)
      && (r.value.1.Some? ==> r.value.1.value as int == gid as int % U32_LIMIT)
  {
    match ConvertIdAsWritten(uid, UID_MSG)
    case Err(e) => Err(e)
    case Ok(u) =>
      match ConvertIdAsWritten(gid, GID_MSG)
      case Err(e) => Err(e)
      case Ok(g) => Ok((u, g))
  }

  /** One id of `chown` with the range check the conversion evidently
      intends: ids above the largest `u32` are OverflowError instead of
      wrapping, so an accepted id is the id itself. */
  function ConvertId(id: Isize, msg: string, rangeMsg: string): (r: Result<Option<U32>>)
    ensures r.Ok? && r.value.Some? <==> 0 <= id as int < U32_LIMIT
    ensures r.Ok? && r.value.Some? ==> r.value.value as int == id as int
    ensures id == -1 ==> r == Ok(None)
    ensures id < -1 ==> r == Raise(OSError, msg)
    ensures id as int >= U32_LIMIT ==> r == Raise(OverflowError, rangeMsg)
  {
    if id as int >= U32_LIMIT then Raise(OverflowError, rangeMsg)
    else if id >= 0 then Ok(Some(id as int as U32))
    else if id == -1 then Ok(None)
    else Raise(OSError, msg)
  }

  /** `chown`'s ids: the uid is checked before the gid. */
  function ChownIds(uid: Isize, gid: Isize): (r: Result<(Option<U32>, Option<U32>)>)
    ensures ConvertId(uid, UID_MSG, UID_RANGE_MSG).Err? ==> r == Err(ConvertId(uid, UID_MSG, UID_RANGE_MSG).exc)
    ensures ConvertId(uid, UID_MSG, UID_RANGE_MSG).Ok? && ConvertId(gid, GID_MSG, GID_RANGE_MSG).Err? ==>
      r == Err(ConvertId(gid, GID_MSG, GID_RANGE_MSG).exc)
    ensures r.Ok? ==>
      (r.value.0.None? <==> uid == -1) && (r.value.1.None? <==> gid == -1)
      && (r.value.0.Some? ==> r.value.0.value as int == uid as int)
      && (r.value.1.Some? ==> r.value.1.value as int == gid as int)
  {
    match ConvertId(uid, UID_MSG, UID_RANGE_MSG)
    case Err(e) => Err(e)
    case Ok(u) =>
      match ConvertId(gid, GID_MSG, GID_RANGE_MSG)
      case Err(e) => Err(e)
      case Ok(g) => Ok((u, g))
  }

  /** On ids that fit `u32` the range check changes nothing: `chown` as
      written and with the check accept and refuse the same ids alike. */
  lemma ChownIdsAgreeInRange(uid: Isize, gid: Isize)
    requires uid as int < U32_LIMIT && gid as int < U32_LIMIT
    ensures ChownIdsAsWritten(uid, gid) == ChownIds(uid, gid)
  {
    if uid >= 0 {
      assert uid as int % U32_LIMIT == uid as int;
    }
    if gid >= 0 {
      assert gid as int % U32_LIMIT == gid as int;
    }
  }

  /** uid 2^32 with gid 0: as written the file is given to the superuser,
      uid 0; with the range check the call is OverflowError. */
  lemma ChownUidWrapsToRoot()
    ensures ChownIdsAsWritten(U32_LIMIT as Isize, 0) == Ok((Some(0), Some(0)))
    ensures ChownIds(U32_LIMIT as Isize, 0) == Raise(OverflowError, UID_RANGE_MSG)
  {
    ChownIdWraps();
  }

  // ---------------------------------------------------------------------
  // envp_from_dict

  const KEY_NUL_MSG := "envp dict key cannot contain a nul byte"
  const KEY_EQUALS_MSG := "envp dict key cannot contain a '=' character"
  const VALUE_NUL_MSG := "envp dict value cannot contain a nul byte"

  /** One environment entry from its key and value bytes: the key must hold
      no NUL and no `=`, the value no NUL, checked in that order; the entry
      is `key=value`. */
  function EnvEntry(k: Bytes, v: Bytes): (r: Result<Bytes>)
    ensures r.Ok? <==> NUL !in k && EQUALS !in k && NUL !in v
    ensures NUL in k ==> r == Raise(ValueError, KEY_NUL_MSG)
    ensures NUL !in k && EQUALS in k ==> r == Raise(ValueError, KEY_EQUALS_MSG)
    ensures NUL !in k && EQUALS !in k && NUL in v ==> r == Raise(ValueError, VALUE_NUL_MSG)
    ensures r.Ok? ==> NUL !in r.value
  {
    if NUL in k then Raise(ValueError, KEY_NUL_MSG)
    else if EQUALS in k then Raise(ValueError, KEY_EQUALS_MSG)
    else if NUL in v then Raise(ValueError, VALUE_NUL_MSG)
    else Ok(k + [EQUALS] + v)
  }

  /** The position of the first `=` of an entry, if any. */
  function FirstEquals(e: Bytes): (r: Option<nat>)
    ensures r.Some? ==> r.value < |e| && e[r.value] == EQUALS && EQUALS !in e[..r.value]
    ensures r.None? ==> EQUALS !in e
  {
    if e == [] then None
    else if e[0] == EQUALS then Some(0)
    else match FirstEquals(e[1..])
      case None => None
      case Some(i) => assert e[..i + 1] == [e[0]] + e[1..][..i]; Some(i + 1)
  }

  /** Splitting an entry at its first `=`, as the C library reads `environ`. */
  function SplitEntry(e: Bytes): Option<(Bytes, Bytes)> {
    match FirstEquals(e)
    case None => None
    case Some(i) => Some((e[..i], e[i + 1..]))
  }

  /** A valid entry reads back as its key and value. */
  lemma EnvEntryRoundTrip(k: Bytes, v: Bytes)
    requires EnvEntry(k, v).Ok?
    ensures SplitEntry(EnvEntry(k, v).value) == Some((k, v))
  {
    var e := k + [EQUALS] + v;
    assert e[..|k|] == k && e[|k| + 1..] == v;
    assert e[|k|] == EQUALS;
  }

  /** One dict pair: key and value converted to bytes (the key first), then
      checked and joined. */
  function EnvPair(p: (Obj, Obj), toBytes: Obj -> Result<Bytes>): Result<Bytes> {
    match toBytes(p.0)
    case Err(e) => Err(e)
    case Ok(k) =>
      match toBytes(p.1)
      case Err(e) => Err(e)
      case Ok(v) => EnvEntry(k, v)
  }

  /** The entries of `envp_from_dict` for the pairs `ps`: the entry of
      each pair in turn, stopping at the first that fails. */
  function Envp(ps: seq<(Obj, Obj)>, toBytes: Obj -> Result<Bytes>): Result<seq<Bytes>> {
    if ps == [] then Ok([])
    else
      match EnvPair(ps[0], toBytes)
      case Err(e) => Err(e)
      case Ok(entry) => Prefixed([entry], Envp(ps[1..], toBytes))
  }

  /** `Envp` gives all entries, in order, exactly when every pair converts,
      and otherwise the error of the first pair that fails. */
  lemma {:induction false} EnvpMeaning(ps: seq<(Obj, Obj)>, toBytes: Obj -> Result<Bytes>)
    ensures var r := Envp(ps, toBytes);
      (r.Ok? <==> forall j | 0 <= j < |ps| :: EnvPair(ps[j], toBytes).Ok?)
      && (r.Ok? ==> |r.value| == |ps| && forall j | 0 <= j < |ps| :: r.value[j] == EnvPair(ps[j], toBytes).value)
      && (r.Err? ==> exists j | 0 <= j < |ps| ::
            EnvPair(ps[j], toBytes) == Err(r.exc) && forall i | 0 <= i < j :: EnvPair(ps[i], toBytes).Ok?)
    decreases |ps|
  {
    if ps != [] {
      EnvpMeaning(ps[1..], toBytes);
      assert forall j | 0 <= j < |ps| - 1 :: ps[1..][j] == ps[j + 1];
      var r := Envp(ps, toBytes);
      if EnvPair(ps[0], toBytes).Err? {
        assert EnvPair(ps[0], toBytes) == Err(r.exc);
      } else if r.Err? {
        var r' := Envp(ps[1..], toBytes);
        var j :| 0 <= j < |ps| - 1 && EnvPair(ps[1..][j], toBytes) == Err(r'.exc)
          && forall i | 0 <= i < j :: EnvPair(ps[1..][i], toBytes).Ok?;
        assert EnvPair(ps[j + 1], toBytes) == Err(r.exc);
        assert forall i | 0 <= i < j + 1 :: EnvPair(ps[i], toBytes).Ok? by {
          forall i | 0 <= i < j + 1 ensures EnvPair(ps[i], toBytes).Ok? {
            if i > 0 {
              assert EnvPair(ps[1..][i - 1], toBytes).Ok?;
            }
          }
        }
      }
    }
  }

  /** `rest` with `done` in front, if it succeeded. */
  function Prefixed(done: seq<Bytes>, rest: Result<seq<Bytes>>): Result<seq<Bytes>> {
    match rest
    case Ok(es) => Ok(done + es)
    case Err(e) => Err(e)
  }

  /** One step of the walk: a failing pair ends it, a good one moves its
      entry to the front. */
  lemma EnvpStep(done: seq<Bytes>, ps: seq<(Obj, Obj)>, toBytes: Obj -> Result<Bytes>)
    requires ps != []
    ensures EnvPair(ps[0], toBytes).Err? ==> Envp(ps, toBytes) == Err(EnvPair(ps[0], toBytes).exc)
    ensures EnvPair(ps[0], toBytes).Ok? ==>
      Prefixed(done, Envp(ps, toBytes)) == Prefixed(done + [EnvPair(ps[0], toBytes).value], Envp(ps[1..], toBytes))
  {
    if EnvPair(ps[0], toBytes).Ok? && Envp(ps[1..], toBytes).Ok? {
      var entry := EnvPair(ps[0], toBytes).value;
      var rest := Envp(ps[1..], toBytes).value;
      assert done + ([entry] + rest) == (done + [entry]) + rest;
    }
  }

  /** One pair's entry, built the way `envp_from_dict` builds it: the key
      bytes, then `=`, then the value bytes. */
  method EnvEntryOf(k: Obj, v: Obj, toBytes: Obj -> Result<Bytes>) returns (r: Result<Bytes>)
    ensures r == EnvPair((k, v), toBytes)
  {
    var kb := toBytes(k);
    if kb.Err? {
      return Err(kb.exc);
    }
    var vb := toBytes(v);
    if vb.Err? {
      return Err(vb.exc);
    }
    if NUL in kb.value {
      return Raise(ValueError, KEY_NUL_MSG);
    }
    if EQUALS in kb.value {
      return Raise(ValueError, KEY_EQUALS_MSG);
    }
    if NUL in vb.value {
      return Raise(ValueError, VALUE_NUL_MSG);
    }
    var env := kb.value;
    env := env + [EQUALS];
    env := env + vb.value;
    return Ok(env);
  }

  /** `envp_from_dict`'s walk from position `p`, where `goal` is the
      outcome still to be reached from the entries `out` built so far: with
      no pair left it is `out`. */
  lemma EnvpDone(s0: seq<Slot>, p: nat, out: seq<Bytes>, goal: Result<seq<Bytes>>, toBytes: Obj -> Result<Bytes>)
    requires p <= |s0| && NextLive(s0, p).None?
    requires goal == Prefixed(out, Envp(Items(s0[p..]), toBytes))
    ensures goal == Ok(out)
  {
    NextLiveHead(s0, p);
    assert out + [] == out;
  }

  /** The same walk at its next live pair, whose entry is `entry`: a
      failing entry is the outcome's error, a good one is added to `out`. */
  lemma EnvpNext(s0: seq<Slot>, p: nat, out: seq<Bytes>, goal: Result<seq<Bytes>>, toBytes: Obj -> Result<Bytes>,
                 entry: Result<Bytes>)
    requires p <= |s0| && NextLive(s0, p).Some?
    requires goal == Prefixed(out, Envp(Items(s0[p..]), toBytes))
    requires entry == EnvPair(s0[NextLive(s0, p).value].value, toBytes)
    ensures entry.Err? ==> goal == Err(entry.exc)
    ensures entry.Ok? ==> goal == Prefixed(out + [entry.value], Envp(Items(s0[NextLive(s0, p).value + 1..]), toBytes))
  {
    NextLiveHead(s0, p);
    EnvpStep(out, Items(s0[p..]), toBytes);
  }

  /** `envp_from_dict`: walks the dict and builds each `key=value` entry,
      stopping at the first failing pair. */
  method EnvpFromDict(env: Dict, toBytes: Obj -> Result<Bytes>) returns (r: Result<seq<Bytes>>)
    ensures r == Envp(Items(env.entries.slots), toBytes)
  {
    ghost var s0 := env.entries.slots;
    ghost var goal := Envp(Items(s0), toBytes);
    var out: seq<Bytes> := [];
    // The `for` loop's `DictIter` holds nothing but its position, which
    // is kept here in `position` and advanced by `next_entry`.
    var position: nat := 0;
    assert s0[0..] == s0;
    assert goal == Prefixed(out, Envp(Items(s0[0..]), toBytes)) by {
      match goal {
        case Ok(es) => assert out + es == es;
        case Err(_) =>
      }
    }
    while true
      invariant position <= |s0|
      invariant goal == Prefixed(out, Envp(Items(s0[position..]), toBytes))
      decreases |s0| - position
    {
      var e, next := env.entries.NextEntry(position);
      if e.None? {
        EnvpDone(s0, position, out, goal, toBytes);
        return Ok(out);
      }
      var (k, v) := e.value;
      var entry := EnvEntryOf(k, v, toBytes);
      EnvpNext(s0, position, out, goal, toBytes, entry);
      position := next;
      if entry.Err? {
        return Err(entry.exc);
      }
      out := out + [entry.value];
    }
  }
}
